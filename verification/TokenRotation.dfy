/** Session tokens on their way to the keyring. Any number of sinks, in any number of processes, share one
    keyring blob and one kernel slot; the server hands out a chain of single-use refresh tokens per session.
    A token is its position along that chain. A load-modify-write of the blob is one step. */
module TokenRotation {
  import opened Prelude
  import opened Runs

  datatype Tokens = Tokens(access: nat, refresh: nat)

  /** The pair the server issues at position `n`; the two numbers differ, so that an access token cannot pass
      for a refresh token. */
  function Issued(n: nat): Tokens { Tokens(2 * n + 1, n) }

  predicate Paired(t: Tokens) { t == Issued(t.refresh) }

  /** The keyring blob; `rest` is everything in it but session id and tokens. */
  datatype Stored = Stored(session: nat, tokens: Tokens, rest: nat)

  /** A rotation the keyring refused, as kept in the kernel slot. */
  datatype Unsaved = Unsaved(session: nat, spent: nat, tokens: Tokens) {
    predicate BelongsIn(stored: Stored) {
      session == stored.session && spent == stored.tokens.refresh
    }
  }

  /** One `TokenSink` and the client that feeds it. `rotating`: a `rotated` call is in progress;
      `settling`: a `flush` has written, or found nothing to write into, and has yet to settle;
      `held`: this sink has put its unsaved rotation into the kernel slot, or found it there when it resumed. */
  datatype Sink = Sink(
    session: nat, current: nat, stored: nat, unsaved: Option<Tokens>, kept: bool,
    rotating: bool, settling: bool, held: bool)

  /** `live` is the server's current token of each session; `signedOut` the sessions a logout was asked
      for; `lost` the sessions whose process died holding the only copy of the live token. */
  datatype State = State(
    live: map<nat, nat>, blob: Option<Stored>, slot: Option<Unsaved>, sinks: map<nat, Sink>,
    signedOut: set<nat>, lost: set<nat>)

  datatype Keyring = Works | RefusesLoad | RefusesWrite

  datatype Step =
    | Login(id: nat, session: nat, rest: nat, written: bool)
    | Logout(cleared: bool, deleted: bool)
    | Rewrite(rest: nat)
    | Resume(id: nat, readable: bool, cleared: bool)
    | Refresh(id: nat)
    | Flush(id: nat, keyring: Keyring)
    | Settle(id: nat, cleared: bool)
    | Keep(id: nat, stored: bool)
    | Rotated(id: nat)
    | Exit(id: nat)

  const Initial := State(map[], None, None, map[], {}, {})

  /** `take_rotation`: the blob with `tokens` put in, or `None` if it has moved on without this session. */
  function TakeRotation(stored: Stored, session: nat, storedRefresh: nat, tokens: Tokens): Option<Stored> {
    if stored.session != session || (stored.tokens.refresh != storedRefresh && stored.tokens.refresh != tokens.refresh)
    then None
    else Some(stored.(tokens := tokens))
  }

  /** `recover_unsaved`: the tokens of the kernel record, if it belongs in the blob. */
  function RecoverUnsaved(stored: Stored, slot: Option<Unsaved>): Option<Tokens> {
    if slot.Some? && slot.value.BelongsIn(stored) then Some(slot.value.tokens) else None
  }

  /** The refresh token `resume_stored` starts the session with. */
  function ResumesWith(stored: Stored, slot: Option<Unsaved>): nat {
    var unsaved := RecoverUnsaved(stored, slot);
    if unsaved.Some? then unsaved.value.refresh else stored.tokens.refresh
  }

  predicate Enabled(s: State, step: Step) {
    match step
    case Login(id, session, _, _) => id !in s.sinks && session !in s.live
    case Logout(_, _) => true
    case Rewrite(_) => s.blob.Some?
    case Resume(id, _, _) => id !in s.sinks && s.blob.Some?
    case Refresh(id) =>
      && id in s.sinks && s.sinks[id].session in s.live
      && !s.sinks[id].rotating && !s.sinks[id].settling
      && s.sinks[id].current == s.live[s.sinks[id].session]
    case Flush(id, _) => id in s.sinks && !s.sinks[id].settling
    case Settle(id, _) => id in s.sinks && s.sinks[id].settling
    case Keep(id, _) => id in s.sinks && s.sinks[id].rotating && !s.sinks[id].settling
    case Rotated(id) =>
      id in s.sinks && s.sinks[id].rotating && !s.sinks[id].settling && s.sinks[id].unsaved.None?
    case Exit(id) => id in s.sinks
  }

  function Next(s: State, step: Step): State
    requires Enabled(s, step)
  {
    match step
    case Login(id, session, rest, written) =>
      // A login whose blob is refused ends with an error and keeps no session.
      var begun := s.(live := s.live[session := 0]);
      if !written then begun else
      begun.(
        blob := Some(Stored(session, Issued(0), rest)),
        sinks := s.sinks[id := Sink(session, 0, 0, None, false, false, false, false)])
    case Logout(cleared, deleted) =>
      s.(
        blob := if deleted then None else s.blob,
        slot := if cleared then None else s.slot,
        signedOut := if s.blob.Some? then s.signedOut + {s.blob.value.session} else s.signedOut)
    case Rewrite(rest) => s.(blob := Some(s.blob.value.(rest := rest)))
    case Resume(id, readable, cleared) => ResumeStored(s, id, readable, cleared)
    case Refresh(id) =>
      var k := s.sinks[id];
      var n := s.live[k.session] + 1;
      s.(
        live := s.live[k.session := n],
        sinks := s.sinks[id := k.(current := n, unsaved := Some(Issued(n)), rotating := true, held := false)])
    case Flush(id, keyring) => FlushSink(s, id, keyring)
    case Settle(id, cleared) =>
      var k := s.sinks[id];
      s.(
        slot := if k.kept && cleared then None else s.slot,
        sinks := s.sinks[id := k.(unsaved := None, kept := false, settling := false)])
    case Keep(id, stored) =>
      var k := s.sinks[id];
      if k.unsaved.None? || !stored then s.(sinks := s.sinks[id := k.(rotating := false)])
      else
        s.(
          slot := Some(Record(k)),
          sinks := s.sinks[id := k.(rotating := false, kept := true, held := true)])
    case Rotated(id) => s.(sinks := s.sinks[id := s.sinks[id].(rotating := false)])
    case Exit(id) =>
      var k := s.sinks[id];
      s.(
        sinks := s.sinks - {id},
        lost := if Exposed(k) then s.lost + {k.session} else s.lost)
  }

  /** This sink's unsaved rotation is in its memory, and by its own doing nowhere it could be resumed from. */
  predicate Exposed(k: Sink) {
    k.unsaved.Some? && !k.settling && !k.held
  }

  /** What `keep_in_kernel` puts into the slot. */
  function Record(k: Sink): Unsaved
    requires k.unsaved.Some?
  {
    Unsaved(k.session, k.stored, k.unsaved.value)
  }

  /** The keyring half of `flush`, up to `settle`. */
  function FlushSink(s: State, id: nat, keyring: Keyring): State
    requires id in s.sinks
  {
    var k := s.sinks[id];
    if k.unsaved.None? || keyring.RefusesLoad? then s
    else if s.blob.None? then s.(sinks := s.sinks[id := k.(settling := true)])
    else
      var taken := TakeRotation(s.blob.value, k.session, k.stored, k.unsaved.value);
      if taken.None? then s.(sinks := s.sinks[id := k.(settling := true)])
      else if keyring.RefusesWrite? then s
      else
        s.(
          blob := taken,
          sinks := s.sinks[id := k.(stored := k.unsaved.value.refresh, settling := true)])
  }

  /** `resume_stored`: a record that does not belong in the blob is dropped from the slot, one that does
      becomes the new sink's unsaved rotation. */
  function ResumeStored(s: State, id: nat, readable: bool, cleared: bool): State
    requires s.blob.Some?
  {
    var b := s.blob.value;
    var unsaved := if readable then RecoverUnsaved(b, s.slot) else None;
    s.(
      slot := if readable && s.slot.Some? && unsaved.None? && cleared then None else s.slot,
      sinks := s.sinks[id := Sink(
        b.session, if unsaved.Some? then unsaved.value.refresh else b.tokens.refresh, b.tokens.refresh,
        unsaved, false, unsaved.Some?, false, unsaved.Some?)])
  }

  // ----- what every state satisfies

  predicate SinkOk(live: map<nat, nat>, k: Sink) {
    && k.session in live && k.stored <= live[k.session] && k.current <= live[k.session]
    && (k.unsaved.Some? ==>
          && Paired(k.unsaved.value) && k.unsaved.value.refresh <= live[k.session]
          && if k.settling then k.stored <= k.unsaved.value.refresh else k.stored < k.unsaved.value.refresh)
    && (k.settling ==> k.unsaved.Some?)
  }

  /** No token is ahead of the server, access and refresh tokens stay paired, and an unsaved rotation is
      ahead of the token it spent, in memory and in the kernel slot. */
  ghost predicate Inv(s: State) {
    && (s.blob.Some? ==>
          && s.blob.value.session in s.live
          && Paired(s.blob.value.tokens) && s.blob.value.tokens.refresh <= s.live[s.blob.value.session])
    && (s.slot.Some? ==>
          && s.slot.value.session in s.live
          && Paired(s.slot.value.tokens) && s.slot.value.tokens.refresh <= s.live[s.slot.value.session]
          && s.slot.value.spent < s.slot.value.tokens.refresh)
    && (forall id :: id in s.sinks ==> SinkOk(s.live, s.sinks[id]))
  }

  lemma InvKept(s: State, step: Step)
    requires Inv(s) && Enabled(s, step)
    ensures Inv(Next(s, step))
  {
    match step
    case Login(_, _, _, _) => InvKeptByLogin(s, step);
    case Logout(_, _) =>
    case Rewrite(_) =>
    case Resume(id, _, _) => InvKeptByResume(s, step);
    case Refresh(id) => InvKeptByRefresh(s, id);
    case Flush(id, keyring) => InvKeptByFlush(s, id, keyring);
    case Settle(id, _) => InvKeptByOwner(s, step);
    case Keep(id, _) => InvKeptByOwner(s, step);
    case Rotated(id) => InvKeptByOwner(s, step);
    case Exit(id) =>
  }

  lemma InvKeptByLogin(s: State, step: Step)
    requires Inv(s) && Enabled(s, step) && step.Login?
    ensures Inv(Next(s, step))
  {
    var s' := Next(s, step);
    forall id | id in s'.sinks ensures SinkOk(s'.live, s'.sinks[id]) {
      assert id in s.sinks ==> SinkOk(s.live, s.sinks[id]);
    }
  }

  lemma InvKeptByResume(s: State, step: Step)
    requires Inv(s) && Enabled(s, step) && step.Resume?
    ensures Inv(Next(s, step))
  {
  }

  lemma InvKeptByRefresh(s: State, id: nat)
    requires Inv(s) && Enabled(s, Refresh(id))
    ensures Inv(Next(s, Refresh(id)))
  {
    var s' := Next(s, Refresh(id));
    forall j | j in s'.sinks ensures SinkOk(s'.live, s'.sinks[j]) {
      assert SinkOk(s.live, s.sinks[j]);
    }
  }

  lemma InvKeptByFlush(s: State, id: nat, keyring: Keyring)
    requires Inv(s) && Enabled(s, Flush(id, keyring))
    ensures Inv(Next(s, Flush(id, keyring)))
  {
    assert SinkOk(s.live, s.sinks[id]);
  }

  lemma InvKeptByOwner(s: State, step: Step)
    requires Inv(s) && Enabled(s, step) && (step.Settle? || step.Keep? || step.Rotated?)
    ensures Inv(Next(s, step))
  {
    assert SinkOk(s.live, s.sinks[step.id]);
  }

  // ----- runs

  lemma InvHolds(s: State, steps: seq<Step>)
    requires Inv(s) && Run(Next, s, steps)
    ensures Inv(Final(Next, s, steps))
  {
    forall s, step | Inv(s) && Enabled(s, step) ensures Inv(Next(s, step)) {
      InvKept(s, step);
    }
    RunKeeps(Next, Inv, s, steps);
  }

  /** One step never brings a session back into the blob and never moves its tokens back. */
  lemma BlobMovesForward(s: State, step: Step)
    requires Inv(s) && Enabled(s, step)
    ensures
      var s' := Next(s, step);
      && (forall session :: session in s.live ==> session in s'.live && s.live[session] <= s'.live[session])
      && (s'.blob.Some? && s'.blob.value.session in s.live ==>
            && s.blob.Some? && s.blob.value.session == s'.blob.value.session
            && s.blob.value.tokens.refresh <= s'.blob.value.tokens.refresh)
  {
    if step.Flush? {
      assert SinkOk(s.live, s.sinks[step.id]);
    }
  }

  /** Over every run: a session found in the blob that existed when the run started was in the blob then,
      with the same or an older refresh token. So a logged-out or replaced session never comes back, and a
      stored refresh token never moves backwards. */
  lemma {:induction false} StoredTokensNeverGoBack(s: State, steps: seq<Step>)
    requires Inv(s) && Run(Next, s, steps)
    ensures
      var t := Final(Next, s, steps);
      && (forall session :: session in s.live ==> session in t.live && s.live[session] <= t.live[session])
      && (t.blob.Some? && t.blob.value.session in s.live ==>
            && s.blob.Some? && s.blob.value.session == t.blob.value.session
            && s.blob.value.tokens.refresh <= t.blob.value.tokens.refresh)
    decreases |steps|
  {
    if steps != [] {
      BlobMovesForward(s, steps[0]);
      InvKept(s, steps[0]);
      StoredTokensNeverGoBack(Next(s, steps[0]), steps[1..]);
    }
  }

  /** A logout that deletes the blob ends its session and every older one for good: whatever sinks still flush,
      no session from before it is ever in the blob again. */
  lemma LoggedOutStaysOut(s: State, cleared: bool, steps: seq<Step>)
    requires Inv(s) && Run(Next, Next(s, Logout(cleared, true)), steps)
    ensures
      var t := Final(Next, Next(s, Logout(cleared, true)), steps);
      t.blob.Some? ==> t.blob.value.session !in s.live
  {
    InvKept(s, Logout(cleared, true));
    StoredTokensNeverGoBack(Next(s, Logout(cleared, true)), steps);
  }

  /** A flush leaves an absent blob absent and another session's blob as it is; into its own it puts a
      pair of tokens issued together, no older than those it replaces, and nothing else. */
  lemma FlushKeepsToItsBlob(s: State, id: nat, keyring: Keyring)
    requires Inv(s) && Enabled(s, Flush(id, keyring))
    ensures
      var s' := Next(s, Flush(id, keyring));
      && (s.blob.None? ==> s'.blob.None?)
      && (s.blob.Some? && s.blob.value.session != s.sinks[id].session ==> s'.blob == s.blob)
      && (s.blob.Some? ==>
            && s'.blob.Some? && s'.blob.value.session == s.blob.value.session
            && s'.blob.value.rest == s.blob.value.rest
            && Paired(s'.blob.value.tokens) && s'.blob.value.tokens.refresh >= s.blob.value.tokens.refresh)
      && s'.slot == s.slot && s'.live == s.live
  {
    assert SinkOk(s.live, s.sinks[id]);
  }

  /** Once the keyring works, a flush whose blob still holds the token this sink left there, or already holds
      the new one, stores the new pair and settles. */
  lemma FlushDelivers(s: State, id: nat, cleared: bool)
    requires Inv(s) && Enabled(s, Flush(id, Works)) && s.sinks[id].unsaved.Some?
    requires s.blob.Some? && s.blob.value.session == s.sinks[id].session
    ensures
      var k, s1 := s.sinks[id], Next(s, Flush(id, Works));
      && Enabled(s1, Settle(id, cleared))
      && var s2 := Next(s1, Settle(id, cleared));
         && s2.sinks[id].unsaved.None? && !s2.sinks[id].kept
         && (s2.blob.value.tokens == k.unsaved.value && s2.sinks[id].stored == k.unsaved.value.refresh
             <==> s.blob.value.tokens.refresh == k.stored || s.blob.value.tokens.refresh == k.unsaved.value.refresh)
  {
    assert SinkOk(s.live, s.sinks[id]);
  }
}
