/** The token sink as the object it is: fields that `rotated`, `keep_in_kernel` and `flush` update, beside the
    keyring they share. Every call is a run of steps of the rotation protocol, so what holds of all runs holds
    of all calls. */
module TokenSink {
  import opened Prelude
  import opened Runs
  import opened TokenRotation

  /** The keyring blob and the kernel slot. */
  class Store {
    var blob: Option<Stored>
    var slot: Option<Unsaved>

    constructor ()
      ensures blob.None? && slot.None?
    {
      blob, slot := None, None;
    }
  }

  /** The blob is still the session's, and holds the token the sink last left in it or the new one already. */
  predicate TakesOver(blob: Option<Stored>, session: nat, last: nat, new_: Tokens) {
    && blob.Some? && blob.value.session == session
    && (blob.value.tokens.refresh == last || blob.value.tokens.refresh == new_.refresh)
  }

  class TokenSink {
    const session: nat
    var stored: nat
    var unsaved: Option<Tokens>
    var kept: bool
    ghost var current: nat
    ghost var rotating: bool
    ghost var held: bool

    ghost function View(): Sink
      reads this
    {
      Sink(session, current, stored, unsaved, kept, rotating, false, held)
    }

    /** `s` is a state of the protocol in which this object is the sink `id`. */
    ghost predicate Is(s: State, id: nat, store: Store)
      reads this, store
    {
      s.blob == store.blob && s.slot == store.slot && id in s.sinks && s.sinks[id] == View()
    }

    constructor (session: nat, stored: nat)
      ensures View() == Sink(session, stored, stored, None, false, false, false, false)
    {
      this.session, this.stored, this.unsaved, this.kept := session, stored, None, false;
      current, rotating, held := stored, false, false;
    }

    /** `settle`. */
    method Settle(store: Store, cleared: bool)
      modifies this, store
      ensures unsaved.None? && !kept && stored == old(stored) && store.blob == old(store.blob)
      ensures store.slot == if old(kept) && cleared then None else old(store.slot)
      ensures current == old(current) && rotating == old(rotating) && held == old(held)
    {
      unsaved := None;
      if kept {
        kept := false;
        if cleared {
          store.slot := None;
        }
      }
    }

    /** `flush`, under the sink's lock: an error exactly when the keyring refuses to answer, or to take what
        it should take. The blob changes only in its tokens, and only if it is still this session's and holds
        the token this sink left in it or already the new one. */
    method Flush(store: Store, keyring: Keyring, cleared: bool, ghost s: State, ghost id: nat)
      returns (ok: bool, ghost steps: seq<Step>)
      requires Is(s, id, store)
      modifies this, store
      ensures Run(Next, s, steps) && Is(Final(Next, s, steps), id, store)
      ensures steps == if old(unsaved).None? then [] else if ok then [Step.Flush(id, keyring), Step.Settle(id, cleared)]
                       else [Step.Flush(id, keyring)]
      ensures
        var takes := old(unsaved).Some? && TakesOver(old(store.blob), session, old(stored), old(unsaved).value);
        && (ok <==> old(unsaved).None? || !(keyring.RefusesLoad? || (keyring.RefusesWrite? && takes)))
        && (if takes && keyring.Works? then
              && store.blob == Some(old(store.blob).value.(tokens := old(unsaved).value))
              && stored == old(unsaved).value.refresh
            else store.blob == old(store.blob) && stored == old(stored))
      ensures if ok && old(unsaved).Some? then
                && unsaved.None? && !kept
                && store.slot == (if old(kept) && cleared then None else old(store.slot))
              else unsaved == old(unsaved) && kept == old(kept) && store.slot == old(store.slot)
      ensures rotating == old(rotating) && current == old(current) && held == old(held)
    {
      steps := [];
      if unsaved.None? {
        return true, steps;
      }
      steps := [Step.Flush(id, keyring)];
      assert Enabled(s, Step.Flush(id, keyring));
      OneStep(Next, s, Step.Flush(id, keyring));
      ok := WriteBack(store, keyring);
      if ok {
        Settle(store, cleared);
        assert Enabled(Final(Next, s, steps), Step.Settle(id, cleared));
        RunExtends(Next, s, steps, Step.Settle(id, cleared));
        steps := steps + [Step.Settle(id, cleared)];
      }
    }

    /** The keyring half of `flush`: load, put the rotation in, write. */
    method WriteBack(store: Store, keyring: Keyring) returns (ok: bool)
      requires unsaved.Some?
      modifies `stored, store`blob
      ensures
        var takes := TakesOver(old(store.blob), session, old(stored), unsaved.value);
        && (ok <==> !(keyring.RefusesLoad? || (keyring.RefusesWrite? && takes)))
        && (if takes && keyring.Works? then
              store.blob == Some(old(store.blob).value.(tokens := unsaved.value)) && stored == unsaved.value.refresh
            else store.blob == old(store.blob) && stored == old(stored))
    {
      if keyring.RefusesLoad? {
        return false;
      }
      if store.blob.Some? {
        var taken := TakeRotation(store.blob.value, session, stored, unsaved.value);
        if taken.Some? {
          if keyring.RefusesWrite? {
            return false;
          }
          store.blob := taken;
          stored := unsaved.value.refresh;
        }
      }
      return true;
    }

    /** `keep_in_kernel`, the end of a refused `rotated`. */
    method KeepInKernel(store: Store, accepted: bool, ghost s: State, ghost id: nat)
      requires Is(s, id, store) && rotating && unsaved.Some?
      modifies this, store
      ensures Is(Next(s, Keep(id, accepted)), id, store) && unsaved == old(unsaved)
      ensures stored == old(stored) && store.blob == old(store.blob) && !rotating
      ensures store.slot == (if accepted then Some(Unsaved(session, stored, unsaved.value)) else old(store.slot))
      ensures kept == (accepted || old(kept))
    {
      if accepted {
        store.slot := Some(Unsaved(session, stored, unsaved.value));
        kept, held := true, true;
      }
      rotating := false;
    }

    /** `rotated`, with the tokens the server has just issued. */
    method Rotated(store: Store, keyring: Keyring, accepted: bool, cleared: bool, ghost s: State, ghost id: nat,
                   tokens: Tokens)
      returns (ok: bool, ghost steps: seq<Step>)
      requires Is(s, id, store) && Enabled(s, Refresh(id))
      requires tokens == Issued(s.live[session] + 1)
      modifies this, store
      ensures Run(Next, s, steps) && Is(Final(Next, s, steps), id, store)
      ensures steps == [Refresh(id), Step.Flush(id, keyring)]
                       + if ok then [Step.Settle(id, cleared), Step.Rotated(id)] else [Keep(id, accepted)]
      ensures !rotating && unsaved == if ok then None else Some(tokens)
      ensures
        var takes := TakesOver(old(store.blob), session, old(stored), tokens);
        && (ok <==> !(keyring.RefusesLoad? || (keyring.RefusesWrite? && takes)))
        && (if takes && keyring.Works? then
              store.blob == Some(old(store.blob).value.(tokens := tokens)) && stored == tokens.refresh
            else store.blob == old(store.blob) && stored == old(stored))
      ensures store.slot == if ok then (if old(kept) && cleared then None else old(store.slot))
                            else if accepted then Some(Unsaved(session, stored, tokens)) else old(store.slot)
    {
      assert Enabled(s, Refresh(id));
      OneStep(Next, s, Refresh(id));
      unsaved, current, rotating, held := Some(tokens), tokens.refresh, true, false;
      ghost var delivery;
      ok, delivery := Deliver(store, keyring, accepted, cleared, Next(s, Refresh(id)), id);
      RunsJoin(Next, s, [Refresh(id)], delivery);
      steps := [Refresh(id)] + delivery;
    }

    /** The rest of `rotated`: write it, or keep it in the kernel. */
    method Deliver(store: Store, keyring: Keyring, accepted: bool, cleared: bool, ghost s: State, ghost id: nat)
      returns (ok: bool, ghost steps: seq<Step>)
      requires Is(s, id, store) && rotating && unsaved.Some?
      modifies this, store
      ensures Run(Next, s, steps) && Is(Final(Next, s, steps), id, store)
      ensures steps == [Step.Flush(id, keyring)]
                       + if ok then [Step.Settle(id, cleared), Step.Rotated(id)] else [Keep(id, accepted)]
      ensures !rotating && unsaved == if ok then None else old(unsaved)
      ensures
        var takes := TakesOver(old(store.blob), session, old(stored), old(unsaved).value);
        && (ok <==> !(keyring.RefusesLoad? || (keyring.RefusesWrite? && takes)))
        && (if takes && keyring.Works? then
              && store.blob == Some(old(store.blob).value.(tokens := old(unsaved).value))
              && stored == old(unsaved).value.refresh
            else store.blob == old(store.blob) && stored == old(stored))
      ensures store.slot == if ok then (if old(kept) && cleared then None else old(store.slot))
                            else if accepted then Some(Unsaved(session, stored, old(unsaved).value)) else old(store.slot)
    {
      ok, steps := Flush(store, keyring, cleared, s, id);
      if ok {
        assert Enabled(Final(Next, s, steps), Step.Rotated(id));
        RunExtends(Next, s, steps, Step.Rotated(id));
        steps := steps + [Step.Rotated(id)];
        rotating := false;
      } else {
        ghost var refused := Final(Next, s, steps);
        KeepInKernel(store, accepted, refused, id);
        assert Enabled(Final(Next, s, steps), Keep(id, accepted));
        RunExtends(Next, s, steps, Keep(id, accepted));
        steps := steps + [Keep(id, accepted)];
      }
    }
  }
}
