/**
 The smartcard daemon connections of agent/call-daemon.c as a transition system:
 any number of sessions, one primary connection that is lent and handed back,
 additional socket connections, and the thread that waits for the daemon's end.
 Each section under the lock is one step.
 */
module DaemonProtocol {
  import opened Octets

  type Context = nat
  type Session = nat

  /** struct daemon_local_s. */
  datatype Local = Local(ctx: Option<Context>, inUse: bool, invalid: bool)

  datatype Event = Spawned(generation: nat) | Cleaned(generation: nat)

  /**
   The fields of struct daemon_global_s with the sessions' structures, and what
   the protocol does with them over time: contexts that a failed start has still
   to release, the daemon generation each context belongs to, every release in
   order, and every start and clean-up of a daemon in order.
   */
  datatype State = State(
    locals: map<Session, Local>,
    localList: seq<Session>,
    primary: Option<Context>,
    reusable: bool,
    socket: Option<bytes>,
    failing: map<Session, Option<Context>>,
    generationOf: map<Context, nat>,
    generation: nat,
    waiting: bool,
    released: seq<Context>,
    events: seq<Event>)

  const INIT := State(map[], [], None, false, None, map[], map[], 0, false, [], [])

  /** What the environment of daemon_start does, in the order in which it is asked. */
  datatype Outcome = Outcome(created: bool, ctx: Context, connected: bool, flushed: bool, spawned: bool,
                             socketName: Option<bytes>)

  datatype Step =
    | Start(session: Session, outcome: Outcome)   // daemon_start up to its first unlock and the assignment behind it
    | FailUnlock(session: Session)                // the rest of a daemon_start that failed
    | Unlock(session: Session)                    // daemon_unlock
    | Reset(session: Session)                     // agent_reset_daemon
    | ChildGone                                   // wait_child_thread after the child has died
    | WaiterGivesUp                               // wait_child_thread after waitpid has failed

  predicate Enabled(s: State, step: Step) {
    match step
    case Start(id, o) => id !in s.failing && o.ctx !in s.generationOf
    case FailUnlock(id) => id in s.failing && id in s.locals
    case Unlock(id) => id in s.locals && id !in s.failing
    case Reset(id) => id !in s.failing
    case ChildGone => s.waiting
    case WaiterGivesUp => s.waiting
  }

  function Release(released: seq<Context>, ctx: Option<Context>): seq<Context> {
    if ctx.Some? then released + [ctx.value] else released
  }

  // ----- daemon_start

  /** Enter the session into the list if this is its first call, and mark it. */
  function Register(s: State, id: Session): State {
    if id in s.locals then s.(locals := s.locals[id := s.locals[id].(inUse := true)])
    else s.(locals := s.locals[id := Local(None, true, false)], localList := [id] + s.localList)
  }

  function Granted(s: State, id: Session, ctx: Context): State
    requires id in s.locals
  {
    s.(locals := s.locals[id := s.locals[id].(ctx := Some(ctx), invalid := false)])
  }

  function Failed(s: State, id: Session, ctx: Option<Context>): State {
    s.(failing := s.failing[id := ctx])
  }

  /** The daemon has been started by a session. */
  function SpawnedBy(s: State, id: Session, c: Context, socketName: Option<bytes>): State
    requires id in s.locals
  {
    var g := s.generation + 1;
    Granted(s.(primary := Some(c), reusable := false, socket := socketName, generation := g,
               generationOf := s.generationOf[c := g], waiting := true, events := s.events + [Spawned(g)]), id, c)
  }

  /** Use a new context to connect to the socket of the daemon or to start the daemon. */
  function UseFresh(n: State, id: Session, o: Outcome): State
    requires id in n.locals
  {
    if n.socket.Some? then if o.connected then Granted(n, id, o.ctx) else Failed(n, id, Some(o.ctx))
    else if n.primary.Some? || !o.flushed || !o.spawned then Failed(n, id, Some(o.ctx))
    else SpawnedBy(n, id, o.ctx, o.socketName)
  }

  /** Reuse the primary context, or use a new one. */
  function Connect(r: State, id: Session, o: Outcome): State
    requires id in r.locals
  {
    if r.primary.Some? && r.reusable then Granted(r.(reusable := false), id, r.primary.value)
    else if !o.created then Failed(r, id, None)
    else UseFresh(r.(generationOf := r.generationOf[o.ctx := r.generation]), id, o)
  }

  function StartSession(s: State, id: Session, o: Outcome): State {
    if id in s.locals && s.locals[id].ctx.Some? then
      s.(locals := s.locals[id := s.locals[id].(inUse := true)])
    else if id in s.locals && s.locals[id].inUse then s
    else Connect(Register(s, id), id, o)
  }

  // ----- daemon_unlock, also at the end of a failed daemon_start

  function UnlockSession(s: State, id: Session): State
    requires id in s.locals
  {
    var l := s.locals[id];
    if l.invalid then
      s.(locals := s.locals[id := Local(None, false, false)], released := Release(s.released, l.ctx))
    else s.(locals := s.locals[id := l.(inUse := false)])
  }

  function FailSession(s: State, id: Session): State
    requires id in s.locals && id in s.failing
  {
    var u := UnlockSession(s, id);
    u.(failing := u.failing - {id}, released := Release(u.released, s.failing[id]))
  }

  // ----- agent_reset_daemon

  function Without<T(==)>(s: seq<T>, x: T): seq<T> {
    if s == [] then [] else if s[0] == x then s[1..] else [s[0]] + Without(s[1..], x)
  }

  function ResetSession(s: State, id: Session): State {
    if id !in s.locals then s
    else
      var ctx := s.locals[id].ctx;
      var back := ctx.Some? && ctx == s.primary;
      s.(locals := s.locals - {id}, localList := Without(s.localList, id),
         reusable := back || s.reusable,
         released := if back then s.released else Release(s.released, ctx))
  }

  // ----- wait_child_thread

  function Invalidated(l: Local): Local {
    if !l.inUse then Local(None, l.inUse, true) else l.(invalid := true)
  }

  /** The contexts that the clean-up loop releases, in list order. */
  function IdleContexts(locals: map<Session, Local>, list: seq<Session>): seq<Context>
  {
    if list == [] then []
    else
      var rest := IdleContexts(locals, list[1..]);
      if list[0] in locals && !locals[list[0]].inUse && locals[list[0]].ctx.Some?
      then [locals[list[0]].ctx.value] + rest else rest
  }

  function CleanUp(s: State): State {
    s.(locals := map id | id in s.locals :: Invalidated(s.locals[id]),
       released := s.released + IdleContexts(s.locals, s.localList),
       primary := None, reusable := false, socket := None, waiting := false,
       events := s.events + [Cleaned(s.generation)])
  }

  function Apply(s: State, step: Step): State
    requires Enabled(s, step)
  {
    match step
    case Start(id, o) => StartSession(s, id, o)
    case FailUnlock(id) => FailSession(s, id)
    case Unlock(id) => UnlockSession(s, id)
    case Reset(id) => ResetSession(s, id)
    case ChildGone => CleanUp(s)
    case WaiterGivesUp => s.(waiting := false)
  }

  // ----- the invariant

  predicate Distinct<T(==)>(s: seq<T>) {
    forall i, j :: 0 <= i < j < |s| ==> s[i] != s[j]
  }

  /** The session holds this context. */
  predicate Holds(s: State, id: Session, c: Context) {
    id in s.locals && s.locals[id].ctx == Some(c)
  }

  /** local_list contains the structure of every session exactly once. */
  ghost predicate ListInv(s: State) {
    && Distinct(s.localList)
    && (forall id :: id in s.localList <==> id in s.locals)
  }

  /** Who owns which context. */
  ghost predicate OwnerInv(s: State) {
    && (forall a, b, c :: Holds(s, a, c) && Holds(s, b, c) ==> a == b)
    && (s.reusable ==> s.primary.Some? && forall a :: !Holds(s, a, s.primary.value))
    && (s.primary.Some? && !s.reusable ==> exists a :: Holds(s, a, s.primary.value))
    && (s.socket.Some? ==> s.primary.Some?)
  }

  /** A context of a dead daemon is only kept by a session that is using it, and marked. */
  ghost predicate ValidityInv(s: State) {
    && (forall a, c :: Holds(s, a, c) ==> c in s.generationOf)
    && (forall a, c :: Holds(s, a, c) && s.locals[a].invalid ==> s.locals[a].inUse)
    && (forall a, c :: Holds(s, a, c) ==>
          (s.locals[a].invalid <==> !(s.primary.Some? && s.generationOf[c] == s.generation)))
    && (s.primary.Some? ==> s.primary.value in s.generationOf && s.generationOf[s.primary.value] == s.generation)
    && (forall c :: c in s.generationOf ==> s.generationOf[c] <= s.generation)
  }

  /** A context that is neither the primary one nor that of a session. */
  ghost predicate OnlyFailing(s: State, c: Context) {
    c in s.generationOf && s.primary != Some(c) && forall b :: !Holds(s, b, c)
  }

  /** What a failed start has still to release belongs to nobody else. */
  ghost predicate FailingInv(s: State) {
    && (forall a :: a in s.failing ==> a in s.locals && s.locals[a].inUse && s.locals[a].ctx.None?)
    && (forall a :: a in s.failing && s.failing[a].Some? ==> OnlyFailing(s, s.failing[a].value))
    && (forall a, b :: a in s.failing && b in s.failing && a != b && s.failing[a].Some? ==> s.failing[a] != s.failing[b])
  }

  /** No context is released twice, and nobody has a released context. */
  ghost predicate ReleaseInv(s: State) {
    && Distinct(s.released)
    && (forall c :: c in s.released ==> c in s.generationOf)
    && (forall c :: c in s.released ==> s.primary != Some(c) && forall a :: !Holds(s, a, c))
    && (forall a :: a in s.failing && s.failing[a].Some? ==> s.failing[a].value !in s.released)
  }

  /** Daemons are started and cleaned up one after the other. */
  ghost predicate EventInv(s: State) {
    && |s.events| == 2 * s.generation - (if s.primary.Some? then 1 else 0)
    && (forall i :: 0 <= i < |s.events| ==>
          s.events[i] == if i % 2 == 0 then Spawned(i / 2 + 1) else Cleaned(i / 2 + 1))
    && (s.waiting ==> s.primary.Some?)
  }

  ghost predicate Inv(s: State) {
    ListInv(s) && OwnerInv(s) && ValidityInv(s) && FailingInv(s) && ReleaseInv(s) && EventInv(s)
  }

  // ----- every step keeps it

  /** Who owns what does not change if nobody gets or gives up a context. */
  lemma OwnersSame(s: State, t: State)
    requires OwnerInv(s) && s.primary == t.primary && s.reusable == t.reusable && s.socket == t.socket
    requires forall a, c :: Holds(t, a, c) <==> Holds(s, a, c)
    ensures OwnerInv(t)
  {
    hide Holds;
    if s.primary.Some? && !s.reusable {
      var a :| Holds(s, a, s.primary.value);
      assert Holds(t, a, t.primary.value);
    }
  }

  /** Only the sessions themselves have changed. */
  lemma HoldersSame(s: State, t: State)
    requires Inv(s) && t == s.(locals := t.locals, localList := t.localList)
    requires forall a, c :: Holds(t, a, c) <==> Holds(s, a, c)
    ensures OwnerInv(t) && ReleaseInv(t) && EventInv(t)
  {
    hide Holds, OwnerInv, ListInv, ValidityInv, FailingInv;
    OwnersSame(s, t);
  }

  lemma RegisterKeeps(s: State, id: Session)
    requires Inv(s) && id !in s.failing
    requires id in s.locals ==> s.locals[id].ctx.None?
    ensures Inv(Register(s, id)) && id in Register(s, id).locals && Register(s, id).locals[id].ctx.None?
    ensures Register(s, id).locals[id].inUse
  {
    hide ListInv, OwnerInv, ValidityInv, FailingInv, ReleaseInv, EventInv;
    RegisterHolders(s, id);
    HoldersSame(s, Register(s, id));
    RegisterLists(s, id);
    RegisterRest(s, id);
  }

  lemma RegisterHolders(s: State, id: Session)
    requires id in s.locals ==> s.locals[id].ctx.None?
    ensures var r := Register(s, id);
            r == s.(locals := r.locals, localList := r.localList) && forall a, c :: Holds(r, a, c) <==> Holds(s, a, c)
  {
  }

  lemma RegisterRest(s: State, id: Session)
    requires ValidityInv(s) && FailingInv(s) && id !in s.failing
    requires id in s.locals ==> s.locals[id].ctx.None?
    ensures ValidityInv(Register(s, id)) && FailingInv(Register(s, id))
  {
    RegisterHolders(s, id);
  }

  lemma RegisterLists(s: State, id: Session)
    requires ListInv(s)
    ensures ListInv(Register(s, id))
  {
    var r := Register(s, id);
    if id !in s.locals {
      assert forall a :: a in r.localList <==> a == id || a in s.localList;
    }
  }

  /** The state of a session that is about to get a context. */
  ghost predicate Ready(s: State, id: Session) {
    && Inv(s) && id !in s.failing && id in s.locals
    && s.locals[id].ctx.None? && s.locals[id].inUse
  }

  lemma ReuseKeeps(s: State, id: Session)
    requires Ready(s, id) && s.primary.Some? && s.reusable
    ensures Inv(Granted(s.(reusable := false), id, s.primary.value))
  {
    var c := s.primary.value;
    var t := Granted(s.(reusable := false), id, c);
    assert Holds(t, id, c);
    assert forall a, d :: Holds(t, a, d) <==> Holds(s, a, d) || (a == id && d == c);
  }

  lemma FreshKeeps(s: State, c: Context)
    requires Inv(s) && c !in s.generationOf
    ensures var t := s.(generationOf := s.generationOf[c := s.generation]);
            && Inv(t) && c !in t.released && t.primary != Some(c)
            && (forall a :: !Holds(t, a, c))
            && (forall a :: a in t.failing ==> t.failing[a] != Some(c))
  {
    var t := s.(generationOf := s.generationOf[c := s.generation]);
    assert forall a, d :: Holds(t, a, d) <==> Holds(s, a, d);
    if s.primary.Some? && !s.reusable {
      var a :| Holds(s, a, s.primary.value);
      assert Holds(t, a, t.primary.value);
    }
  }

  /** A context that nobody has or had. */
  ghost predicate Unowned(s: State, c: Context) {
    && c in s.generationOf && s.generationOf[c] == s.generation
    && c !in s.released && s.primary != Some(c)
    && (forall a :: !Holds(s, a, c))
    && (forall a :: a in s.failing ==> s.failing[a] != Some(c))
  }

  lemma ConnectKeeps(s: State, id: Session, c: Context)
    requires Ready(s, id) && Unowned(s, c) && s.primary.Some? && !s.reusable
    ensures Inv(Granted(s, id, c))
  {
    var t := Granted(s, id, c);
    assert forall a, d :: Holds(t, a, d) <==> Holds(s, a, d) || (a == id && d == c);
    var a :| Holds(s, a, s.primary.value);
    assert Holds(t, a, t.primary.value);
  }

  lemma FailedKeeps(s: State, id: Session, ctx: Option<Context>)
    requires Ready(s, id) && (ctx.Some? ==> Unowned(s, ctx.value))
    ensures Inv(Failed(s, id, ctx))
  {
    hide ListInv, OwnerInv, ValidityInv, FailingInv, ReleaseInv, EventInv;
    var t := Failed(s, id, ctx);
    OwnersSame(s, t);
    FailedRest(s, t);
    FailedStart(s, id, ctx);
    FailedReleases(s, id, ctx);
  }

  lemma FailedStart(s: State, id: Session, ctx: Option<Context>)
    requires FailingInv(s) && id in s.locals && s.locals[id].ctx.None? && s.locals[id].inUse
    requires ctx.Some? ==> Unowned(s, ctx.value)
    ensures FailingInv(Failed(s, id, ctx))
  {
    var t := Failed(s, id, ctx);
    assert forall a, d :: Holds(t, a, d) <==> Holds(s, a, d);
  }

  lemma FailedReleases(s: State, id: Session, ctx: Option<Context>)
    requires ReleaseInv(s) && (ctx.Some? ==> ctx.value !in s.released)
    ensures ReleaseInv(Failed(s, id, ctx))
  {
    var t := Failed(s, id, ctx);
    assert forall a, d :: Holds(t, a, d) <==> Holds(s, a, d);
  }

  /** What does not depend on failed starts. */
  lemma FailedRest(s: State, t: State)
    requires ListInv(s) && EventInv(s) && ValidityInv(s) && t == s.(failing := t.failing)
    ensures ListInv(t) && EventInv(t) && ValidityInv(t)
  {
    assert forall a, d :: Holds(t, a, d) <==> Holds(s, a, d);
  }

  /** A daemon is started only when the previous one has been cleaned up. */
  lemma SpawnKeeps(s: State, id: Session, c: Context, socketName: Option<bytes>)
    requires Ready(s, id) && Unowned(s, c) && s.primary.None?
    ensures Inv(SpawnedBy(s, id, c, socketName))
  {
    var t := SpawnedBy(s, id, c, socketName);
    assert Holds(t, id, c);
    assert forall a, d :: Holds(t, a, d) <==> Holds(s, a, d) || (a == id && d == c);
    hide EventInv;
    assert EventInv(t) by { SpawnEvents(s, id, c, socketName); }
  }

  lemma SpawnEvents(s: State, id: Session, c: Context, socketName: Option<bytes>)
    requires EventInv(s) && id in s.locals && s.primary.None?
    ensures EventInv(SpawnedBy(s, id, c, socketName))
  {
  }

  lemma StartKeeps(s: State, id: Session, o: Outcome)
    requires Inv(s) && Enabled(s, Start(id, o))
    ensures Inv(StartSession(s, id, o))
  {
    hide Inv, OwnerInv, ListInv, ValidityInv, FailingInv, ReleaseInv, EventInv, Register, Granted, Failed;
    if id in s.locals && s.locals[id].ctx.Some? {
      MarkKeeps(s, id);
    } else if id in s.locals && s.locals[id].inUse {
    } else {
      RegisterKeeps(s, id);
      RegisterSame(s, id);
      var r := Register(s, id);
      SocketHasPrimary(r);
      if r.primary.Some? && r.reusable {
        ReuseKeeps(r, id);
      } else if !o.created {
        FailedKeeps(r, id, None);
      } else {
        FreshKeeps(r, o.ctx);
        var n := r.(generationOf := r.generationOf[o.ctx := r.generation]);
        if n.socket.Some? && o.connected {
          ConnectKeeps(n, id, o.ctx);
        } else if n.socket.Some? || n.primary.Some? || !o.flushed || !o.spawned {
          FailedKeeps(n, id, Some(o.ctx));
        } else {
          SpawnKeeps(n, id, o.ctx, o.socketName);
        }
      }
    }
  }

  lemma RegisterSame(s: State, id: Session)
    ensures var r := Register(s, id);
            r == s.(locals := r.locals, localList := r.localList)
  {
  }

  lemma SocketHasPrimary(s: State)
    requires Inv(s)
    ensures s.socket.Some? ==> s.primary.Some?
  {
  }

  lemma MarkKeeps(s: State, id: Session)
    requires Inv(s) && id !in s.failing && id in s.locals
    ensures Inv(s.(locals := s.locals[id := s.locals[id].(inUse := true)]))
  {
    hide OwnerInv, ReleaseInv, EventInv;
    var t := s.(locals := s.locals[id := s.locals[id].(inUse := true)]);
    assert forall a, d :: Holds(t, a, d) <==> Holds(s, a, d);
    HoldersSame(s, t);
  }

  lemma DistinctAppend<T>(s: seq<T>, t: seq<T>)
    requires Distinct(s) && Distinct(t) && forall x :: x in t ==> x !in s
    ensures Distinct(s + t)
  {
    var u := s + t;
    forall i, j | 0 <= i < j < |u|
      ensures u[i] != u[j]
    {
      if i < |s| <= j {
        assert t[j - |s|] in t && s[i] in s;
      }
    }
  }

  lemma HolderStays(s: State, t: State)
    requires s.primary == t.primary && s.primary.Some? && !s.reusable && OwnerInv(s)
    requires forall a :: Holds(s, a, s.primary.value) ==> Holds(t, a, s.primary.value)
    ensures exists a :: Holds(t, a, t.primary.value)
  {
    var a :| Holds(s, a, s.primary.value);
    assert Holds(t, a, t.primary.value);
  }

  /** A session gives up a context other than the primary one. */
  lemma DropKeeps(s: State, id: Session, l: Local)
    requires Inv(s) && id in s.locals && id !in s.failing && l.ctx.None?
    requires s.locals[id].ctx.Some? ==> s.locals[id].ctx != s.primary
    ensures Inv(s.(locals := s.locals[id := l], released := Release(s.released, s.locals[id].ctx)))
  {
    hide ListInv, OwnerInv, ValidityInv, FailingInv, ReleaseInv, EventInv;
    DropOwners(s, id, l);
    DropReleases(s, id, l);
  }

  ghost function Dropped(s: State, id: Session, l: Local): State
    requires id in s.locals
  {
    s.(locals := s.locals[id := l], released := Release(s.released, s.locals[id].ctx))
  }

  lemma DropOwners(s: State, id: Session, l: Local)
    requires Inv(s) && id in s.locals && id !in s.failing && l.ctx.None?
    requires s.locals[id].ctx.Some? ==> s.locals[id].ctx != s.primary
    ensures var t := Dropped(s, id, l); ListInv(t) && OwnerInv(t) && ValidityInv(t) && EventInv(t)
  {
    hide FailingInv, ReleaseInv;
    var t := Dropped(s, id, l);
    assert forall a, d :: Holds(t, a, d) <==> Holds(s, a, d) && a != id;
    if s.primary.Some? && !s.reusable {
      HolderStays(s, t);
    }
  }

  lemma DropReleases(s: State, id: Session, l: Local)
    requires Inv(s) && id in s.locals && id !in s.failing && l.ctx.None?
    requires s.locals[id].ctx.Some? ==> s.locals[id].ctx != s.primary
    ensures var t := Dropped(s, id, l); FailingInv(t) && ReleaseInv(t)
  {
    hide ListInv, EventInv;
    var ctx := s.locals[id].ctx;
    var t := Dropped(s, id, l);
    assert forall a, d :: Holds(t, a, d) <==> Holds(s, a, d) && a != id;
    if ctx.Some? {
      assert Holds(s, id, ctx.value);
      DistinctAppend(s.released, [ctx.value]);
    }
  }

  lemma IdleKeeps(s: State, id: Session)
    requires Inv(s) && id in s.locals && id !in s.failing && !s.locals[id].invalid
    ensures Inv(s.(locals := s.locals[id := s.locals[id].(inUse := false)]))
  {
    hide OwnerInv, ReleaseInv, EventInv;
    var t := s.(locals := s.locals[id := s.locals[id].(inUse := false)]);
    assert forall a, d :: Holds(t, a, d) <==> Holds(s, a, d);
    HoldersSame(s, t);
  }

  /** A context marked invalid is not the primary one. */
  lemma InvalidIsOld(s: State, id: Session)
    requires Inv(s) && id in s.locals && s.locals[id].invalid && s.locals[id].ctx.Some?
    ensures s.locals[id].ctx != s.primary
  {
    assert Holds(s, id, s.locals[id].ctx.value);
  }

  lemma UnlockKeeps(s: State, id: Session)
    requires Inv(s) && id in s.locals && id !in s.failing
    ensures Inv(UnlockSession(s, id))
  {
    hide Inv;
    if s.locals[id].invalid {
      if s.locals[id].ctx.Some? {
        InvalidIsOld(s, id);
      }
      DropKeeps(s, id, Local(None, false, false));
    } else {
      IdleKeeps(s, id);
    }
  }

  /** The context of a failed start is released. */
  lemma FailReleaseKeeps(s: State, id: Session)
    requires Inv(s) && id in s.failing
    ensures Inv(s.(failing := s.failing - {id}, released := Release(s.released, s.failing[id])))
    ensures id in s.locals && s.locals[id].ctx.None?
  {
    var t := s.(failing := s.failing - {id}, released := Release(s.released, s.failing[id]));
    assert forall a, d :: Holds(t, a, d) <==> Holds(s, a, d);
    if s.failing[id].Some? {
      DistinctAppend(s.released, [s.failing[id].value]);
    }
    if s.primary.Some? && !s.reusable {
      HolderStays(s, t);
    }
    assert ListInv(t) && OwnerInv(t) && EventInv(t);
    assert ValidityInv(t) && FailingInv(t);
  }

  lemma FailUnlockKeeps(s: State, id: Session)
    requires Inv(s) && id in s.failing
    ensures id in s.locals && Inv(FailSession(s, id))
  {
    hide Inv;
    FailReleaseKeeps(s, id);
    var t := s.(failing := s.failing - {id}, released := Release(s.released, s.failing[id]));
    UnlockKeeps(t, id);
    assert FailSession(s, id) == UnlockSession(t, id);
  }

  lemma {:induction false} WithoutList<T>(s: seq<T>, x: T)
    requires Distinct(s)
    ensures Distinct(Without(s, x))
    ensures forall y :: y in Without(s, x) <==> y in s && y != x
  {
    if s != [] {
      assert s == [s[0]] + s[1..];
      WithoutList(s[1..], x);
      if s[0] != x {
        DistinctAppend([s[0]], Without(s[1..], x));
      }
    }
  }

  /** A session without a context leaves the list. */
  lemma LeaveKeeps(s: State, id: Session)
    requires Inv(s) && id in s.locals && id !in s.failing && s.locals[id].ctx.None?
    ensures Inv(s.(locals := s.locals - {id}, localList := Without(s.localList, id)))
  {
    hide OwnerInv, ReleaseInv, EventInv, Without, ListInv, ValidityInv, FailingInv;
    var t := s.(locals := s.locals - {id}, localList := Without(s.localList, id));
    assert forall a, d :: Holds(t, a, d) <==> Holds(s, a, d);
    HoldersSame(s, t);
    LeaveLists(s, t, id);
    LeaveRest(s, t, id);
  }

  lemma LeaveLists(s: State, t: State, id: Session)
    requires ListInv(s) && t.locals == s.locals - {id} && t.localList == Without(s.localList, id)
    ensures ListInv(t)
  {
    hide Without;
    WithoutList(s.localList, id);
  }

  lemma LeaveRest(s: State, t: State, id: Session)
    requires ValidityInv(s) && FailingInv(s) && id !in s.failing
    requires t == s.(locals := s.locals - {id}, localList := t.localList)
    requires forall a, d :: Holds(t, a, d) <==> Holds(s, a, d)
    ensures ValidityInv(t) && FailingInv(t)
  {
  }

  /** The primary context is handed back. */
  lemma ParkKeeps(s: State, id: Session, l: Local)
    requires Inv(s) && id in s.locals && id !in s.failing && l.ctx.None?
    requires s.locals[id].ctx.Some? && s.locals[id].ctx == s.primary
    ensures Inv(s.(locals := s.locals[id := l], reusable := true))
  {
    var t := s.(locals := s.locals[id := l], reusable := true);
    assert Holds(s, id, s.primary.value);
    assert forall a, d :: Holds(t, a, d) <==> Holds(s, a, d) && a != id;
  }

  lemma ResetKeeps(s: State, id: Session)
    requires Inv(s) && id !in s.failing
    ensures Inv(ResetSession(s, id))
  {
    hide Inv, Without;
    if id in s.locals {
      var ctx := s.locals[id].ctx;
      var l := s.locals[id].(ctx := None);
      var t;
      if ctx.Some? && ctx == s.primary {
        ParkKeeps(s, id, l);
        t := s.(locals := s.locals[id := l], reusable := true);
      } else {
        DropKeeps(s, id, l);
        t := s.(locals := s.locals[id := l], released := Release(s.released, ctx));
      }
      LeaveKeeps(t, id);
      assert t.locals - {id} == s.locals - {id};
    }
  }

  /** The clean-up releases the contexts of the idle sessions, each once. */
  lemma {:induction false} IdleReleased(s: State, list: seq<Session>)
    requires OwnerInv(s) && Distinct(list)
    ensures var idle := IdleContexts(s.locals, list);
            && Distinct(idle)
            && (forall c :: c in idle <==> exists a :: a in list && Holds(s, a, c) && !s.locals[a].inUse)
  {
    if list != [] {
      var a, rest := list[0], IdleContexts(s.locals, list[1..]);
      var idle := IdleContexts(s.locals, list);
      IdleReleased(s, list[1..]);
      assert list == [a] + list[1..];
      forall c
        ensures c in idle <==> exists b :: b in list && Holds(s, b, c) && !s.locals[b].inUse
      {
        if c in rest {
          var b :| b in list[1..] && Holds(s, b, c) && !s.locals[b].inUse;
          assert b in list;
        }
        if b :| b in list && Holds(s, b, c) && !s.locals[b].inUse {
          assert b == a || b in list[1..];
        }
      }
      assert Distinct(idle) by {
        if idle != rest {
          assert Holds(s, a, idle[0]);
          assert idle[0] !in rest;
        }
      }
    }
  }

  lemma CleanUpKeeps(s: State)
    requires Inv(s) && s.waiting
    ensures Inv(CleanUp(s))
  {
    hide ListInv, OwnerInv, ValidityInv, FailingInv, ReleaseInv, EventInv, CleanUp;
    CleanUpReleases(s);
    CleanUpFailing(s);
    CleanUpRest(s);
  }

  lemma CleanUpFailing(s: State)
    requires FailingInv(s)
    ensures FailingInv(CleanUp(s))
  {
    hide IdleContexts;
    var t := CleanUp(s);
    assert forall a, d :: Holds(t, a, d) ==> Holds(s, a, d);
  }

  lemma CleanUpReleases(s: State)
    requires Inv(s) && s.waiting
    ensures ReleaseInv(CleanUp(s))
  {
    hide EventInv;
    var t := CleanUp(s);
    var idle := IdleContexts(s.locals, s.localList);
    IdleReleased(s, s.localList);
    assert forall a, d :: Holds(t, a, d) <==> Holds(s, a, d) && s.locals[a].inUse;
    DistinctAppend(s.released, idle);
  }

  lemma CleanUpRest(s: State)
    requires Inv(s) && s.waiting
    ensures var t := CleanUp(s); ListInv(t) && OwnerInv(t) && ValidityInv(t) && EventInv(t)
  {
    hide ReleaseInv, FailingInv, IdleContexts;
    var t := CleanUp(s);
    assert forall a, d :: Holds(t, a, d) <==> Holds(s, a, d) && s.locals[a].inUse;
  }

  lemma StepKeeps(s: State, step: Step)
    requires Inv(s) && Enabled(s, step)
    ensures Inv(Apply(s, step))
  {
    hide Inv, ListInv, OwnerInv, ValidityInv, FailingInv, ReleaseInv, EventInv;
    match step
    case Start(id, o) => StartKeeps(s, id, o);
    case FailUnlock(id) => FailUnlockKeeps(s, id);
    case Unlock(id) => UnlockKeeps(s, id);
    case Reset(id) => ResetKeeps(s, id);
    case ChildGone => CleanUpKeeps(s);
    case WaiterGivesUp => GiveUpKeeps(s);
  }

  lemma GiveUpKeeps(s: State)
    requires Inv(s)
    ensures Inv(s.(waiting := false))
  {
    var t := s.(waiting := false);
    assert forall a, d :: Holds(t, a, d) <==> Holds(s, a, d);
    if s.primary.Some? && !s.reusable {
      var a :| Holds(s, a, s.primary.value);
      assert Holds(t, a, t.primary.value);
    }
  }

  // ----- every run

  ghost predicate Moves(s: State, step: Step, t: State) {
    Enabled(s, step) && t == Apply(s, step)
  }

  /** The states of a run of the protocol, in any interleaving. */
  ghost predicate Run(states: seq<State>, steps: seq<Step>) {
    && |states| == |steps| + 1
    && states[0] == INIT
    && forall i :: 0 <= i < |steps| ==> Moves(states[i], steps[i], states[i + 1])
  }

  lemma InitInv()
    ensures Inv(INIT)
  {
  }

  lemma {:induction false} RunInv(states: seq<State>, steps: seq<Step>, i: nat)
    requires Run(states, steps) && i < |states|
    ensures Inv(states[i])
  {
    hide Inv, Apply, Enabled;
    if i == 0 {
      InitInv();
    } else {
      RunInv(states, steps, i - 1);
      assert Moves(states[i - 1], steps[i - 1], states[i]);
      StepKeeps(states[i - 1], steps[i - 1]);
    }
  }

  /**
   In every state of every run: contexts belong to one session each, a parked
   primary context to none, a lent one to exactly one; only a session that is
   using it keeps a context of a dead daemon; the list has every session once.
   */
  lemma Ownership(states: seq<State>, steps: seq<Step>, i: nat)
    requires Run(states, steps) && i < |states|
    ensures var s := states[i];
            && (forall a, b, c :: Holds(s, a, c) && Holds(s, b, c) ==> a == b)
            && (s.reusable ==> s.primary.Some? && forall a :: !Holds(s, a, s.primary.value))
            && (s.primary.Some? && !s.reusable ==>
                  exists a :: Holds(s, a, s.primary.value) && forall b :: Holds(s, b, s.primary.value) ==> b == a)
            && (forall a, c :: Holds(s, a, c) && s.locals[a].invalid ==> s.locals[a].inUse)
            && Distinct(s.localList) && (forall id :: id in s.localList <==> id in s.locals)
  {
    RunInv(states, steps, i);
  }

  /** A session that is not using its context has one of the daemon that is running. */
  lemma IdleIsCurrent(states: seq<State>, steps: seq<Step>, i: nat, a: Session, c: Context)
    requires Run(states, steps) && i < |states| && Holds(states[i], a, c) && !states[i].locals[a].inUse
    ensures var s := states[i]; s.primary.Some? && c in s.generationOf && s.generationOf[c] == s.generation
  {
    RunInv(states, steps, i);
  }

  /** Over every run no context is released twice, and nobody has a released one. */
  lemma ReleasedOnce(states: seq<State>, steps: seq<Step>, i: nat, c: Context)
    requires Run(states, steps) && i < |states| && c in states[i].released
    ensures Distinct(states[i].released)
    ensures states[i].primary != Some(c) && forall a :: !Holds(states[i], a, c)
    ensures i + 1 < |states| ==> c in states[i + 1].released
  {
    RunInv(states, steps, i);
    if i + 1 < |states| {
      assert Moves(states[i], steps[i], states[i + 1]);
      LogGrows(states[i], steps[i]);
      assert states[i].released <= states[i + 1].released;
      var k :| 0 <= k < |states[i].released| && states[i].released[k] == c;
      assert states[i + 1].released[k] == c;
    }
  }

  lemma StartLog(s: State, id: Session, o: Outcome)
    ensures var t := StartSession(s, id, o); s.released == t.released && s.events <= t.events
  {
    hide Register;
    RegisterSame(s, id);
  }

  lemma LogGrows(s: State, step: Step)
    requires Enabled(s, step)
    ensures s.released <= Apply(s, step).released && s.events <= Apply(s, step).events
  {
    hide StartSession, Without, IdleContexts;
    if step.Start? {
      StartLog(s, step.session, step.outcome);
    }
  }

  /**
   Over every run daemons are started and cleaned up strictly in turn: a daemon
   is started only after the waiter of the previous one has cleaned up.
   */
  lemma OneDaemonAtATime(states: seq<State>, steps: seq<Step>, i: nat, k: nat)
    requires Run(states, steps) && i < |states| && k < |states[i].events|
    ensures states[i].events[k] == if k % 2 == 0 then Spawned(k / 2 + 1) else Cleaned(k / 2 + 1)
    ensures states[i].primary.Some? <==> |states[i].events| % 2 == 1
  {
    RunInv(states, steps, i);
  }
}
