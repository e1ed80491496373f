/**
 What the steps of the daemon protocol give to a session and take from it, and
 where every context that was ever made is found.
 */
module DaemonEffects {
  import opened Octets
  import opened DaemonProtocol

  ghost predicate Reaches(states: seq<State>, steps: seq<Step>, s: State) {
    Run(states, steps) && states[|states| - 1] == s
  }

  /** The state at the end of some run. */
  ghost predicate Reachable(s: State) {
    exists states, steps :: Reaches(states, steps, s)
  }

  lemma ReachableInv(s: State)
    requires Reachable(s)
    ensures Inv(s)
  {
    hide Inv, Apply, Enabled;
    var states, steps :| Reaches(states, steps, s);
    RunInv(states, steps, |states| - 1);
  }

  /** The session has a structure, and what it says. */
  predicate HasLocal(s: State, id: Session, l: Local) {
    id in s.locals && s.locals[id] == l
  }

  /** The other sessions notice nothing. */
  predicate OthersSame(s: State, t: State, id: Session) {
    && (forall a :: a in s.locals && a != id ==> HasLocal(t, a, s.locals[a]))
    && (forall a :: a in t.locals && a != id ==> a in s.locals)
    && (forall a :: a in s.failing && a != id ==> a in t.failing && t.failing[a] == s.failing[a])
    && (forall a :: a in t.failing && a != id ==> a in s.failing)
  }

  /** Nothing is known of the daemon that was not known before. */
  predicate DaemonSame(s: State, t: State) {
    && t.primary == s.primary && t.socket == s.socket && t.generation == s.generation && t.waiting == s.waiting
    && t.events == s.events
  }

  // ----- what a session gets from daemon_start

  /** A parked primary context is given to the next session that has none, whatever else would have happened. */
  lemma ParkedIsReused(s: State, id: Session, o: Outcome)
    requires Reachable(s) && Enabled(s, Start(id, o)) && s.reusable
    requires id in s.locals ==> s.locals[id].ctx.None? && !s.locals[id].inUse
    ensures var t := Apply(s, Start(id, o));
            && s.primary.Some? && HasLocal(t, id, Local(s.primary, true, false)) && id !in t.failing
            && DaemonSame(s, t) && !t.reusable && t.released == s.released && t.generationOf == s.generationOf
            && OthersSame(s, t, id)
  {
    hide Inv;
    ReachableInv(s);
    ParkedExists(s);
  }

  lemma ParkedExists(s: State)
    requires Inv(s)
    ensures s.reusable ==> s.primary.Some?
  {
  }

  /** When a session gets a context of its own: the daemon is known by its socket and can be reached, or it is started. */
  predicate GetsNew(s: State, o: Outcome) {
    o.created && ((s.socket.Some? && o.connected) || (s.socket.None? && s.primary.None? && o.flushed && o.spawned))
  }

  /**
   Otherwise the session has afterwards the new context, if and only if a socket
   is known and can be connected to, or no daemon runs and one can be started;
   else the context is left for the error path.
   */
  lemma NewIsGranted(s: State, id: Session, o: Outcome)
    requires Reachable(s) && Enabled(s, Start(id, o)) && !s.reusable
    requires id in s.locals ==> s.locals[id].ctx.None? && !s.locals[id].inUse
    ensures var t := Apply(s, Start(id, o));
            && (forall c :: Holds(t, id, c) <==> GetsNew(s, o) && c == o.ctx)
            && id in t.locals && t.locals[id].inUse && (GetsNew(s, o) ==> !t.locals[id].invalid)
            && (id in t.failing <==> !GetsNew(s, o))
            && (id in t.failing ==> t.failing[id] == if o.created then Some(o.ctx) else None)
            && (o.ctx in t.generationOf <==> o.created)
            && OthersSame(s, t, id) && t.released == s.released && !t.reusable
  {
    hide Inv, Register, Connect;
    RegisterEffect(s, id);
    NewOrFailed(Register(s, id), id, o);
    OthersCompose(s, Register(s, id), Apply(s, Start(id, o)), id);
  }

  lemma RegisterEffect(s: State, id: Session)
    requires id in s.locals ==> s.locals[id].ctx.None?
    ensures var r := Register(s, id);
            && OthersSame(s, r, id) && id in r.locals && r.locals[id].ctx.None? && r.locals[id].inUse
            && DaemonSame(s, r) && r.failing == s.failing && r.released == s.released && r.generationOf == s.generationOf
            && r.reusable == s.reusable
  {
  }

  lemma OthersCompose(s: State, r: State, t: State, id: Session)
    requires OthersSame(s, r, id) && OthersSame(r, t, id)
    ensures OthersSame(s, t, id)
  {
  }

  lemma NewOrFailed(r: State, id: Session, o: Outcome)
    requires id in r.locals && r.locals[id].ctx.None? && r.locals[id].inUse && id !in r.failing && o.ctx !in r.generationOf
    requires !r.reusable
    ensures var t := Connect(r, id, o);
            && (forall c :: Holds(t, id, c) <==> GetsNew(r, o) && c == o.ctx)
            && id in t.locals && t.locals[id].inUse && (GetsNew(r, o) ==> !t.locals[id].invalid)
            && (id in t.failing <==> !GetsNew(r, o))
            && (id in t.failing ==> t.failing[id] == if o.created then Some(o.ctx) else None)
            && (o.ctx in t.generationOf <==> o.created)
            && OthersSame(r, t, id) && t.released == r.released && !t.reusable
  {
  }

  /** A daemon is started if and only if none runs and everything that it takes succeeds; its first context is the primary one. */
  lemma StartedIff(s: State, id: Session, o: Outcome)
    requires Reachable(s) && Enabled(s, Start(id, o))
    requires id in s.locals ==> s.locals[id].ctx.None? && !s.locals[id].inUse
    ensures var t := Apply(s, Start(id, o));
            if s.primary.None? && o.created && o.flushed && o.spawned then
              && t.primary == Some(o.ctx) && t.socket == o.socketName && t.waiting
              && t.generation == s.generation + 1 && t.generationOf == s.generationOf[o.ctx := s.generation + 1]
              && t.events == s.events + [Spawned(s.generation + 1)]
            else DaemonSame(s, t)
  {
    hide Inv, Register, OthersSame;
    ReachableInv(s);
    SocketNeedsDaemon(s);
    RegisterEffect(s, id);
  }

  lemma SocketNeedsDaemon(s: State)
    requires Inv(s)
    ensures s.primary.None? ==> s.socket.None? && !s.reusable
  {
  }

  /** A session that has a context keeps it; one that is in use without a context is turned away. */
  lemma BusyIsSame(s: State, id: Session, o: Outcome)
    requires Enabled(s, Start(id, o)) && id in s.locals && (s.locals[id].ctx.Some? || s.locals[id].inUse)
    ensures var t := Apply(s, Start(id, o));
            && HasLocal(t, id, s.locals[id].(inUse := true)) && OthersSame(s, t, id) && DaemonSame(s, t)
            && t.failing == s.failing && t.reusable == s.reusable && t.released == s.released && t.generationOf == s.generationOf
  {
  }

  // ----- what is taken from it

  /** The context is one of the daemon that is running now. */
  predicate Current(s: State, c: Context) {
    s.primary.Some? && c in s.generationOf && s.generationOf[c] == s.generation
  }

  /**
   daemon_unlock: a session keeps its context if and only if it belongs to the
   daemon that is running; any other context is released.
   */
  lemma UnlockEffect(s: State, id: Session)
    requires Reachable(s) && Enabled(s, Unlock(id))
    ensures var t := Apply(s, Unlock(id));
            && id in t.locals && !t.locals[id].inUse && DaemonSame(s, t) && OthersSame(s, t, id) && t.reusable == s.reusable
            && t.failing == s.failing
            && (forall c :: Holds(t, id, c) <==> Holds(s, id, c) && Current(s, c))
            && (forall c :: Holds(s, id, c) && !Current(s, c) ==> t.released == s.released + [c])
            && ((forall c :: Holds(s, id, c) ==> Current(s, c)) ==> t.released == s.released)
  {
    hide Inv, Current;
    ReachableInv(s);
    if s.locals[id].ctx.Some? {
      assert Holds(s, id, s.locals[id].ctx.value);
      InvalidIsGone(s, id, s.locals[id].ctx.value);
    }
  }

  lemma InvalidIsGone(s: State, id: Session, c: Context)
    requires Inv(s) && Holds(s, id, c)
    ensures s.locals[id].invalid <==> !Current(s, c)
  {
  }

  /** The error path of daemon_start: the session is idle again, and a context that was made for it is released. */
  lemma FailEffect(s: State, id: Session)
    requires Reachable(s) && Enabled(s, FailUnlock(id))
    ensures var t := Apply(s, FailUnlock(id));
            && id in t.locals && t.locals[id].ctx.None? && !t.locals[id].inUse && id !in t.failing
            && DaemonSame(s, t) && OthersSame(s, t, id) && t.reusable == s.reusable
            && t.released == s.released + (if s.failing[id].Some? then [s.failing[id].value] else [])
  {
    hide Inv;
    ReachableInv(s);
    FailingHasNone(s, id);
  }

  lemma FailingHasNone(s: State, id: Session)
    requires Inv(s) && id in s.failing
    ensures id in s.locals && s.locals[id].ctx.None? && s.locals[id].inUse
  {
  }

  /**
   agent_reset_daemon: the session is gone; the primary context is parked for
   the next one, any other context is released.
   */
  lemma ResetEffect(s: State, id: Session)
    requires Reachable(s) && Enabled(s, Reset(id))
    ensures var t := Apply(s, Reset(id));
            && id !in t.locals && id !in t.localList && DaemonSame(s, t) && OthersSame(s, t, id)
            && (forall c: Context :: Holds(s, id, c) && s.primary == Some(c) ==> t.reusable && t.released == s.released)
            && (forall c: Context :: Holds(s, id, c) && s.primary != Some(c) ==>
                  t.reusable == s.reusable && t.released == s.released + [c])
            && ((forall c :: !Holds(s, id, c)) ==> t.reusable == s.reusable && t.released == s.released)
  {
    hide OwnerInv, ValidityInv, FailingInv, ReleaseInv, EventInv;
    ReachableInv(s);
    if id in s.locals {
      ResetKeeps(s, id);
      if s.locals[id].ctx.Some? {
        assert Holds(s, id, s.locals[id].ctx.value);
      }
    }
  }

  /** The contexts that sessions hold without using them. */
  predicate Idle(s: State, c: Context, id: Session) {
    Holds(s, id, c) && !s.locals[id].inUse
  }

  /**
   wait_child_thread: exactly the idle contexts are released; the sessions that
   are using one keep it until they unlock, and nothing of the daemon remains.
   */
  lemma CleanUpEffect(s: State)
    requires Reachable(s) && Enabled(s, ChildGone)
    ensures var t := Apply(s, ChildGone);
            && t.primary == None && t.socket == None && !t.reusable && !t.waiting && t.failing == s.failing
            && t.locals.Keys == s.locals.Keys && (forall a :: a in t.locals ==> t.locals[a].invalid && t.locals[a].inUse == s.locals[a].inUse)
            && (forall a, c :: Holds(t, a, c) <==> Holds(s, a, c) && s.locals[a].inUse)
            && (forall c :: c in t.released <==> c in s.released || exists a :: Idle(s, c, a))
  {
    hide Inv, IdleContexts;
    ReachableInv(s);
    IdleListed(s);
  }

  lemma IdleListed(s: State)
    requires Inv(s)
    ensures forall c :: c in IdleContexts(s.locals, s.localList) <==> exists a :: Idle(s, c, a)
  {
    hide ValidityInv, FailingInv, ReleaseInv, EventInv, IdleContexts;
    IdleReleased(s, s.localList);
    forall c: Context
      ensures c in IdleContexts(s.locals, s.localList) <==> exists a :: Idle(s, c, a)
    {
      if c in IdleContexts(s.locals, s.localList) {
        var a :| a in s.localList && Holds(s, a, c) && !s.locals[a].inUse;
        assert Idle(s, c, a);
      }
    }
  }

  // ----- where every context is

  /** A session has the context, it is parked, a failed start has still to release it, or it has been released. */
  ghost predicate Accounted(s: State, c: Context) {
    || (exists a :: Holds(s, a, c))
    || (s.reusable && s.primary == Some(c))
    || (exists a :: a in s.failing && s.failing[a] == Some(c))
    || c in s.released
  }

  /** The clean-up forgets a parked primary context without releasing it. */
  predicate Forgets(s: State, step: Step, c: Context) {
    step.ChildGone? && s.reusable && s.primary == Some(c)
  }

  /** Every place where the context was is still a place where it is, and the other way round. */
  lemma SamePlaces(s: State, t: State, c: Context)
    requires forall a :: Holds(t, a, c) <==> Holds(s, a, c)
    requires (t.reusable && t.primary == Some(c)) <==> (s.reusable && s.primary == Some(c))
    requires forall a :: (a in t.failing && t.failing[a] == Some(c)) <==> (a in s.failing && s.failing[a] == Some(c))
    requires c in t.released <==> c in s.released
    ensures Accounted(t, c) <==> Accounted(s, c)
  {
    hide Holds;
  }

  lemma StartAccounts(s: State, id: Session, o: Outcome, c: Context)
    requires Inv(s) && Enabled(s, Start(id, o))
    ensures var t := Apply(s, Start(id, o));
            && (c in s.generationOf ==> c in t.generationOf && (Accounted(t, c) <==> Accounted(s, c)))
            && (c !in s.generationOf && c in t.generationOf ==> Accounted(t, c))
  {
    hide Inv, Register, Connect, Accounted;
    var t := Apply(s, Start(id, o));
    if id in s.locals && (s.locals[id].ctx.Some? || s.locals[id].inUse) {
      SamePlaces(s, t, c);
    } else {
      var r := Register(s, id);
      RegisterKeeps(s, id);
      RegisterHolders(s, id);
      RegisterEffect(s, id);
      SamePlaces(s, r, c);
      ConnectAccounts(r, id, o, c);
    }
  }

  lemma ConnectAccounts(r: State, id: Session, o: Outcome, c: Context)
    requires Ready(r, id) && o.ctx !in r.generationOf
    ensures var t := Connect(r, id, o);
            && (c in r.generationOf ==> c in t.generationOf && (Accounted(t, c) <==> Accounted(r, c)))
            && (c !in r.generationOf && c in t.generationOf ==> Accounted(t, c))
  {
    hide Inv, Accounted;
    var t := Connect(r, id, o);
    if r.primary.Some? && r.reusable {
      ReusedAccounts(r, id, c);
    } else if c == o.ctx {
      if o.created { NewAccounts(r, id, o); }
    } else {
      ParkedExists(r);
      SamePlaces(r, t, c);
    }
  }

  lemma ReusedAccounts(r: State, id: Session, c: Context)
    requires Ready(r, id) && r.primary.Some? && r.reusable
    ensures var t := Granted(r.(reusable := false), id, r.primary.value);
            Accounted(t, c) <==> Accounted(r, c)
  {
    hide Inv, Accounted;
    var t := Granted(r.(reusable := false), id, r.primary.value);
    if c == r.primary.value {
      HeldAccounts(t, id, c);
      ParkedAccounts(r, c);
    } else {
      SamePlaces(r, t, c);
    }
  }

  lemma HeldAccounts(s: State, id: Session, c: Context)
    requires Holds(s, id, c)
    ensures Accounted(s, c)
  {
  }

  lemma ParkedAccounts(s: State, c: Context)
    requires s.reusable && s.primary == Some(c)
    ensures Accounted(s, c)
  {
  }

  lemma NewAccounts(r: State, id: Session, o: Outcome)
    requires id in r.locals && o.created && !(r.primary.Some? && r.reusable)
    ensures Accounted(Connect(r, id, o), o.ctx)
  {
    var t := Connect(r, id, o);
    if id in t.failing && t.failing[id] == Some(o.ctx) {
    } else {
      assert Holds(t, id, o.ctx);
    }
  }

  lemma UnlockAccounts(s: State, id: Session, c: Context)
    requires id in s.locals
    ensures Accounted(UnlockSession(s, id), c) <==> Accounted(s, c)
  {
    hide Accounted;
    var t := UnlockSession(s, id);
    if s.locals[id].invalid && s.locals[id].ctx == Some(c) {
      HeldAccounts(s, id, c);
      assert c in t.released;
      ReleasedAccounts(t, c);
    } else {
      SamePlaces(s, t, c);
    }
  }

  lemma ReleasedAccounts(s: State, c: Context)
    requires c in s.released
    ensures Accounted(s, c)
  {
  }

  lemma FailAccounts(s: State, id: Session, c: Context)
    requires id in s.locals && id in s.failing
    ensures Accounted(FailSession(s, id), c) <==> Accounted(s, c)
  {
    hide Accounted, UnlockSession;
    var u, t := UnlockSession(s, id), FailSession(s, id);
    UnlockAccounts(s, id, c);
    assert u.failing == s.failing by { UnlockFailing(s, id); }
    if s.failing[id] == Some(c) {
      FailingAccounts(s, id, c);
      ReleasedAccounts(t, c);
    } else {
      SamePlaces(u, t, c);
    }
  }

  lemma UnlockFailing(s: State, id: Session)
    requires id in s.locals
    ensures UnlockSession(s, id).failing == s.failing
  {
  }

  lemma FailingAccounts(s: State, id: Session, c: Context)
    requires id in s.failing && s.failing[id] == Some(c)
    ensures Accounted(s, c)
  {
  }

  lemma ResetAccounts(s: State, id: Session, c: Context)
    requires Inv(s) && id !in s.failing
    ensures Accounted(ResetSession(s, id), c) <==> Accounted(s, c)
  {
    hide Accounted, Inv, Without;
    var t := ResetSession(s, id);
    if id in s.locals && s.locals[id].ctx == Some(c) {
      HeldAccounts(s, id, c);
      if s.primary == Some(c) { ParkedAccounts(t, c); } else { ReleasedAccounts(t, c); }
    } else {
      assert forall a :: Holds(t, a, c) <==> Holds(s, a, c);
      ParkedOrSame(s, id, c);
      SamePlaces(s, t, c);
    }
  }

  lemma ParkedOrSame(s: State, id: Session, c: Context)
    requires id in s.locals ==> s.locals[id].ctx != Some(c)
    ensures var t := ResetSession(s, id);
            && ((t.reusable && t.primary == Some(c)) <==> (s.reusable && s.primary == Some(c)))
            && (c in t.released <==> c in s.released)
  {
    hide Without;
  }

  lemma CleanUpAccounts(s: State, c: Context)
    requires Inv(s)
    ensures Accounted(CleanUp(s), c) <==> Accounted(s, c) && !(s.reusable && s.primary == Some(c))
  {
    hide Inv, IdleContexts;
    IdleListed(s);
    if s.reusable && s.primary == Some(c) { ParkedAlone(s, c); }
    var t := CleanUp(s);
    assert forall a :: Holds(t, a, c) <==> Holds(s, a, c) && s.locals[a].inUse;
    if a :| Holds(s, a, c) {
      assert Holds(t, a, c) || Idle(s, c, a);
    }
  }

  lemma ParkedAlone(s: State, c: Context)
    requires Inv(s) && s.reusable && s.primary == Some(c)
    ensures forall a :: !Holds(s, a, c)
    ensures c !in s.released && forall a :: a in s.failing ==> s.failing[a] != Some(c)
  {
  }

  lemma StepAccounts(s: State, step: Step, c: Context)
    requires Inv(s) && Enabled(s, step)
    ensures var t := Apply(s, step);
            && (c in s.generationOf ==> c in t.generationOf && (Accounted(t, c) <==> Accounted(s, c) && !Forgets(s, step, c)))
            && (c !in s.generationOf && c in t.generationOf ==> Accounted(t, c))
  {
    hide Inv;
    match step
    case Start(id, o) => StartAccounts(s, id, o, c);
    case FailUnlock(id) => FailAccounts(s, id, c);
    case Unlock(id) => UnlockAccounts(s, id, c);
    case Reset(id) => ResetAccounts(s, id, c);
    case ChildGone => CleanUpAccounts(s, c);
    case WaiterGivesUp =>
      assert forall a :: Holds(Apply(s, step), a, c) <==> Holds(s, a, c);
  }

  /** The clean-up has forgotten this context in some step of the run. */
  ghost predicate Forgotten(states: seq<State>, steps: seq<Step>, i: nat, c: Context)
    requires |states| == |steps| + 1 && i < |states|
  {
    exists j :: 0 <= j < i && Forgets(states[j], steps[j], c)
  }

  lemma {:induction false} MadeForGood(states: seq<State>, steps: seq<Step>, j: nat, i: nat, c: Context)
    requires Run(states, steps) && j <= i < |states| && c in states[j].generationOf
    ensures c in states[i].generationOf
    decreases i
  {
    hide Inv, Apply, Enabled, Accounted, Forgets;
    if j < i {
      MadeForGood(states, steps, j, i - 1, c);
      RunInv(states, steps, i - 1);
      assert Moves(states[i - 1], steps[i - 1], states[i]);
      StepAccounts(states[i - 1], steps[i - 1], c);
    }
  }

  lemma NotYetForgotten(states: seq<State>, steps: seq<Step>, i: nat, c: Context)
    requires Run(states, steps) && i < |states| && c !in states[i].generationOf
    ensures !Forgotten(states, steps, i, c)
    ensures i < |steps| ==> !Forgets(states[i], steps[i], c)
  {
    hide Inv, Apply, Enabled;
    forall j | 0 <= j <= i && j < |steps|
      ensures !Forgets(states[j], steps[j], c)
    {
      RunInv(states, steps, j);
      PrimaryIsMade(states[j]);
      if c in states[j].generationOf { MadeForGood(states, steps, j, i, c); }
    }
  }

  lemma PrimaryIsMade(s: State)
    requires Inv(s)
    ensures s.primary.Some? ==> s.primary.value in s.generationOf
  {
  }

  /**
   Nothing leaks but the parked contexts that a clean-up forgets: in every state
   of every run a context that was ever made is held by a session, parked, to be
   released by a failed start or released, if and only if it was not the parked
   primary context when its daemon ended.
   */
  lemma {:induction false} NothingElseLeaks(states: seq<State>, steps: seq<Step>, i: nat, c: Context)
    requires Run(states, steps) && i < |states| && c in states[i].generationOf
    ensures Accounted(states[i], c) <==> !Forgotten(states, steps, i, c)
  {
    hide Inv, Apply, Enabled, Accounted, Forgets;
    if i > 0 {
      RunInv(states, steps, i - 1);
      var s, step := states[i - 1], steps[i - 1];
      assert Moves(s, step, states[i]);
      StepAccounts(s, step, c);
      if c in s.generationOf {
        NothingElseLeaks(states, steps, i - 1, c);
        assert Forgotten(states, steps, i, c) <==> Forgotten(states, steps, i - 1, c) || Forgets(s, step, c);
      } else {
        NotYetForgotten(states, steps, i - 1, c);
      }
    }
  }

  /** Such a context: the only session starts the daemon and is gone when the daemon ends. */
  lemma ParkedIsForgotten(o: Outcome) returns (states: seq<State>, steps: seq<Step>)
    requires o.created && o.flushed && o.spawned
    ensures Run(states, steps) && |steps| == 3 && Forgotten(states, steps, 3, o.ctx)
    ensures o.ctx in states[3].generationOf && o.ctx !in states[3].released
  {
    var s1 := Apply(INIT, Start(0, o));
    var s2 := Apply(s1, Reset(0));
    var s3 := Apply(s2, ChildGone);
    states, steps := [INIT, s1, s2, s3], [Start(0, o), Reset(0), ChildGone];
    assert s1.localList == [0] && s2.localList == [];
    assert Forgets(states[2], steps[2], o.ctx);
  }
}
