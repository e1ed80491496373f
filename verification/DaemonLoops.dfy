/**
 The functions of agent/call-daemon.c over the fields of struct daemon_global_s.
 */
module DaemonLoops {
  import opened Octets
  import opened DaemonProtocol
  import opened LinkedLists

  datatype StartResult = Ready | Internal | NoDaemon

  ghost predicate LinkedAs(list: List<Session>, sessions: seq<Session>, nodeOf: map<Session, Node<Session>>)
    reads list, list.nodes
  {
    && list.Valid() && list.Items() == sessions
    && (forall id :: id in sessions ==> id in nodeOf && nodeOf[id] in list.nodes && nodeOf[id].item == id)
  }

  class DaemonGlobal {
    var locals: map<Session, Local>
    const list: List<Session>                      // local_list
    var nodeOf: map<Session, Node<Session>>        // the structures of the sessions in that list
    var socketName: Option<bytes>
    var primaryCtx: Option<Context>
    var reusable: bool

    ghost var localList: seq<Session>

    // what happens over time
    ghost var failing: map<Session, Option<Context>>
    ghost var generationOf: map<Context, nat>
    ghost var generation: nat
    ghost var waiting: bool
    ghost var released: seq<Context>
    ghost var events: seq<Event>

    ghost function Abs(): State
      reads this
    {
      State(locals, localList, primaryCtx, reusable, socketName, failing, generationOf, generation, waiting,
            released, events)
    }

    /** The linked list has the sessions in the order of the specification, and every session points to its structure. */
    ghost predicate Linkage()
      reads this, list, list.nodes
    {
      LinkedAs(list, localList, nodeOf)
    }

    constructor ()
      ensures Abs() == INIT && Inv(Abs()) && Linkage() && fresh(list)
    {
      list := new List<Session>();
      nodeOf := map[];
      locals, localList, socketName, primaryCtx, reusable := map[], [], None, None, false;
      failing, generationOf, generation, waiting, released, events := map[], map[], 0, false, [], [];
      new;
      InitInv();
    }

    /** assuan_release. */
    ghost method Released(ctx: Option<Context>)
      modifies this`released
      ensures released == Release(old(released), ctx)
    {
      if ctx.Some? {
        released := released + [ctx.value];
      }
    }

    /** The structure of a session is set up at its first call, and marked. */
    method RegisterLocal(id: Session)
      requires Linkage()
      modifies this`locals, this`localList, this`nodeOf, list
      ensures Linkage() && forall n :: n in list.nodes ==> n in old(list.nodes) || fresh(n)
      ensures Abs() == Register(old(Abs()), id) && id in locals && locals[id].inUse
    {
      hide Segment, LinkedLists.Distinct, ItemsOf;
      if id !in locals {
        locals := locals[id := Local(None, false, false)];
        AddNode(id);
      }
      locals := locals[id := locals[id].(inUse := true)];
    }

    /** A new structure at the front of local_list. */
    method AddNode(id: Session)
      requires Linkage()
      modifies this`localList, this`nodeOf, list
      ensures Linkage() && localList == [id] + old(localList)
      ensures forall n :: n in list.nodes ==> n in old(list.nodes) || fresh(n)
    {
      hide Segment, LinkedLists.Distinct, ItemsOf;
      ghost var was := list.nodes;
      list.Push(id);
      ValidHead(list);
      FrontNode(list.nodes);
      nodeOf := nodeOf[id := list.head];
      localList := [id] + localList;
      FrontItem(list, was);
    }

    /** The assignments behind the unlock in daemon_start. */
    method Grant(id: Session, ctx: Context)
      requires id in locals
      modifies this`locals
      ensures Abs() == Granted(old(Abs()), id, ctx)
    {
      locals := locals[id := locals[id].(ctx := Some(ctx), invalid := false)];
    }

    /** The fields that a newly started daemon changes. */
    method Spawn(id: Session, ctx: Context, name: Option<bytes>)
      requires id in locals
      modifies this
      ensures nodeOf == old(nodeOf) && localList == old(localList)
      ensures Abs() == SpawnedBy(old(Abs()), id, ctx, name)
    {
      SetPrimary(ctx, name);
      Grant(id, ctx);
    }

    method SetPrimary(ctx: Context, name: Option<bytes>)
      modifies this`socketName, this`primaryCtx, this`reusable, this`generation, this`waiting, this`generationOf, this`events
      ensures socketName == name && primaryCtx == Some(ctx) && !reusable && waiting && generation == old(generation) + 1
      ensures generationOf == old(generationOf)[ctx := generation] && events == old(events) + [Spawned(generation)]
    {
      socketName := name;
      primaryCtx := Some(ctx);
      reusable := false;
      generation, waiting := generation + 1, true;
      generationOf := generationOf[ctx := generation];
      events := events + [Spawned(generation)];
    }

    method Fail(id: Session, ctx: Option<Context>)
      modifies this`failing
      ensures Abs() == Failed(old(Abs()), id, ctx)
    {
      failing := failing[id := ctx];
    }

    method UseContext(id: Session, o: Outcome) returns (ok: bool)
      requires id in locals && id !in failing
      modifies this
      ensures nodeOf == old(nodeOf) && localList == old(localList)
      ensures Abs() == UseFresh(old(Abs()), id, o)
      ensures if ok then id !in failing && Holds(Abs(), id, o.ctx) else id in failing && id in locals
    {
      if socketName.Some? {
        if !o.connected {
          Fail(id, Some(o.ctx));
          return false;
        }
        Grant(id, o.ctx);
        return true;
      }
      if primaryCtx.Some? || !o.flushed || !o.spawned {
        Fail(id, Some(o.ctx));
        return false;
      }
      Spawn(id, o.ctx, o.socketName);
      return true;
    }

    /** Reuse the primary context, or connect to the socket, or start the daemon. */
    method ConnectLocal(id: Session, o: Outcome) returns (ok: bool)
      requires id in locals && id !in failing
      modifies this
      ensures nodeOf == old(nodeOf) && localList == old(localList)
      ensures Abs() == Connect(old(Abs()), id, o)
      ensures if ok then id !in failing && id in locals && locals[id].ctx.Some? else id in failing && id in locals
    {
      hide UseFresh;
      if primaryCtx.Some? && reusable {
        reusable := false;
        Grant(id, primaryCtx.value);
        return true;
      }
      if !o.created {
        Fail(id, None);
        return false;
      }
      generationOf := generationOf[o.ctx := generation];
      ok := UseContext(id, o);
    }

    /** daemon_start up to the assignment behind its unlock; on failure a created context is left to be released. */
    method StartSection(id: Session, o: Outcome) returns (r: StartResult)
      requires Inv(Abs()) && Linkage() && Enabled(Abs(), Start(id, o))
      modifies this, list
      ensures Linkage() && forall n :: n in list.nodes ==> n in old(list.nodes) || fresh(n)
      ensures Abs() == StartSession(old(Abs()), id, o) && Inv(Abs())
      ensures r.Ready? ==> id in locals && locals[id].ctx.Some? && id !in failing
      ensures r.Internal? ==> Abs() == old(Abs())
      ensures r.Internal? <==> old(id in locals && locals[id].ctx.None? && locals[id].inUse)
      ensures r.NoDaemon? ==> id in failing && id in locals
    {
      hide Inv, Connect, Register, LinkedAs;
      StartKeeps(Abs(), id, o);
      if id in locals && locals[id].ctx.Some? {
        locals := locals[id := locals[id].(inUse := true)];
        return Ready;
      }
      if id in locals && locals[id].inUse {
        return Internal;
      }
      RegisterLocal(id);
      var ok := ConnectLocal(id, o);
      if !ok {
        FailUnlockKeeps(Abs(), id);
        return NoDaemon;
      }
      return Ready;
    }

    /** daemon_unlock. */
    method DaemonUnlock(id: Session)
      requires Inv(Abs()) && Enabled(Abs(), Unlock(id))
      modifies this`locals, this`released
      ensures Abs() == UnlockSession(old(Abs()), id) && Inv(Abs())
    {
      hide Inv;
      UnlockKeeps(Abs(), id);
      UnlockLocal(id);
    }

    method UnlockLocal(id: Session)
      requires id in locals
      modifies this`locals, this`released
      ensures Abs() == UnlockSession(old(Abs()), id)
    {
      locals := locals[id := locals[id].(inUse := false)];
      if locals[id].invalid {
        Released(locals[id].ctx);
        locals := locals[id := locals[id].(ctx := None, invalid := false)];
      }
    }

    /** The error path at the end of daemon_start. */
    method FailSection(id: Session)
      requires Inv(Abs()) && Enabled(Abs(), FailUnlock(id))
      modifies this`locals, this`released, this`failing
      ensures Abs() == FailSession(old(Abs()), id) && Inv(Abs()) && id !in failing
    {
      hide Inv;
      FailUnlockKeeps(Abs(), id);
      UnlockLocal(id);
      Released(failing[id]);
      failing := failing - {id};
    }

    /** daemon_start without interference: on success the session has a context that no other session has. */
    method DaemonStart(id: Session, o: Outcome) returns (r: StartResult)
      requires Inv(Abs()) && Linkage() && Enabled(Abs(), Start(id, o))
      modifies this, list
      ensures Linkage() && forall n :: n in list.nodes ==> n in old(list.nodes) || fresh(n)
      ensures Inv(Abs())
      ensures r.Ready? ==> Abs() == StartSession(old(Abs()), id, o)
      ensures r.Ready? ==> id in locals && locals[id].ctx.Some?
                           && forall b :: Holds(Abs(), b, locals[id].ctx.value) ==> b == id
      ensures r.NoDaemon? ==> id in StartSession(old(Abs()), id, o).failing && id in StartSession(old(Abs()), id, o).locals
                              && Abs() == FailSession(StartSession(old(Abs()), id, o), id)
      ensures r.Internal? ==> Abs() == old(Abs())
      ensures r.Internal? <==> old(id in locals && locals[id].ctx.None? && locals[id].inUse)
    {
      hide StartSession, FailSession, ValidityInv, FailingInv, ReleaseInv, EventInv, ListInv, LinkedAs;
      r := StartSection(id, o);
      if r.Ready? {
        assert Holds(Abs(), id, locals[id].ctx.value);
      } else if r.NoDaemon? {
        FailSection(id);
      }
    }

    /** Unlink a session from local_list; the search always finds it. */
    method Unlink(id: Session)
      requires Linkage() && id in localList && DaemonProtocol.Distinct(localList)
      modifies this`localList, this`nodeOf, list, list.nodes
      ensures Linkage() && localList == Without(old(localList), id)
      ensures forall n :: n in list.nodes ==> n in old(list.nodes)
    {
      hide Segment, LinkedLists.Distinct, Without, ItemsOf, DaemonProtocol.Distinct;
      ghost var nodes, items := list.nodes, localList;
      NodeItems(list, items, nodeOf);
      var i := list.Unlink(nodeOf[id]);
      WithoutAt(items, i);
      Relinked(list, nodes, items, nodeOf, i);
      nodeOf := nodeOf - {id};
      localList := items[..i] + items[i + 1..];
    }

    /** agent_reset_daemon: the primary context is parked, any other one is released. */
    method ResetDaemon(id: Session)
      requires Inv(Abs()) && Linkage() && Enabled(Abs(), Reset(id))
      modifies this, list, list.nodes
      ensures Linkage() && forall n :: n in list.nodes ==> n in old(list.nodes)
      ensures Abs() == ResetSession(old(Abs()), id) && Inv(Abs())
    {
      hide Inv, Without, LinkedAs, DaemonProtocol.Distinct;
      ResetKeeps(Abs(), id);
      if id in locals {
        ListIsLocals(Abs());
        if locals[id].ctx.Some? {
          if locals[id].ctx == primaryCtx {
            reusable := true;
          } else {
            Released(locals[id].ctx);
          }
        }
        Unlink(id);
        locals := locals - {id};
      }
    }

    /** wait_child_thread after the end of the child. */
    method ChildEnded()
      requires Inv(Abs()) && Linkage() && Enabled(Abs(), ChildGone)
      modifies this
      ensures Linkage() && Abs() == CleanUp(old(Abs())) && Inv(Abs())
    {
      hide Inv, IdleContexts, LinkedAs;
      CleanUpKeeps(Abs());
      ghost var before := Abs();
      InvalidateAll();
      primaryCtx, reusable, socketName := None, false, None;
      waiting := false;
      events := events + [Cleaned(generation)];
    }

    method InvalidateOne(id: Session)
      requires id in locals
      modifies this`locals, this`released
      ensures locals == old(locals)[id := Invalidated(old(locals)[id])]
      ensures var l := old(locals)[id];
              released == old(released) + (if !l.inUse && l.ctx.Some? then [l.ctx.value] else [])
    {
      var sl := locals[id].(invalid := true);
      if !sl.inUse && sl.ctx.Some? {
        Released(sl.ctx);
        sl := sl.(ctx := None);
      }
      locals := locals[id := sl];
    }

    /** The loop over local_list in wait_child_thread. */
    method InvalidateAll()
      requires Inv(Abs()) && Linkage()
      modifies this`locals, this`released
      ensures locals == map id | id in old(locals) :: Invalidated(old(locals)[id])
      ensures released == old(released) + IdleContexts(old(locals), localList)
    {
      hide Inv, IdleContexts, PartlyInvalid, Segment, LinkedLists.Distinct, DaemonProtocol.Distinct, ItemsOf, LinkedAs;
      ghost var was, log, i := locals, released, 0;
      NodeItems(list, localList, nodeOf);
      NoIdle(was);
      ListIsLocals(Abs());
      NoneInvalid(was);
      ValidHead(list);
      var sl := list.head;
      while sl != null
        invariant i <= |localList| && sl == At(list.nodes, i, null)
        invariant PartlyInvalid(was, locals, localList[..i])
        invariant released == log + IdleContexts(was, localList[..i])
        decreases |localList| - i
      {
        var id := sl.item;
        FirstTime(localList, i);
        IdleNext(was, localList, i);
        InvalidNext(was, locals, localList[..i], id);
        InvalidateOne(id);
        assert localList[..i + 1] == localList[..i] + [id];
        ValidNext(list, i);
        sl, i := sl.next, i + 1;
      }
      assert localList[..i] == localList;
      AllInvalid(was, locals, localList);
    }
  }

  lemma FirstTime<T>(s: seq<T>, i: nat)
    requires DaemonProtocol.Distinct(s) && i < |s|
    ensures s[i] !in s[..i]
  {
  }

  lemma FrontNode<T>(s: seq<T>)
    requires s != []
    ensures forall x :: x in s <==> x == s[0] || x in s[1..]
  {
    assert s == [s[0]] + s[1..];
  }

  lemma FrontItem<T>(list: List<T>, was: seq<Node<T>>)
    requires list.nodes != [] && list.nodes[1..] == was
    ensures list.Items() != [] && list.nodes[0].item == list.Items()[0]
  {
  }

  /** Removing from a list without repetitions. */
  lemma {:induction false} WithoutAt<T>(s: seq<T>, i: nat)
    requires DaemonProtocol.Distinct(s) && i < |s|
    ensures Without(s, s[i]) == s[..i] + s[i + 1..]
  {
    if i > 0 {
      WithoutAt(s[1..], i - 1);
      assert s[..i] + s[i + 1..] == [s[0]] + (s[1..][..i - 1] + s[1..][i..]);
    } else {
      assert s[..0] + s[1..] == s[1..];
    }
  }

  lemma NodeItems(list: List<Session>, items: seq<Session>, nodeOf: map<Session, Node<Session>>)
    requires LinkedAs(list, items, nodeOf)
    ensures list.Valid() && |list.nodes| == |items| && forall j :: 0 <= j < |items| ==> list.nodes[j].item == items[j]
  {
  }

  /** The list after a session has been unlinked. */
  lemma Relinked(list: List<Session>, nodes: seq<Node<Session>>, items: seq<Session>, nodeOf: map<Session, Node<Session>>, i: nat)
    requires |nodes| == |items| && i < |nodes| && DaemonProtocol.Distinct(items)
    requires list.Valid() && list.nodes == nodes[..i] + nodes[i + 1..]
    requires forall j :: 0 <= j < |nodes| ==> nodes[j].item == items[j]
    requires forall id :: id in items ==> id in nodeOf && nodeOf[id] in nodes && nodeOf[id].item == id
    ensures LinkedAs(list, items[..i] + items[i + 1..], nodeOf - {items[i]})
    ensures forall n :: n in list.nodes ==> n in nodes
  {
    hide Segment, LinkedLists.Distinct, DaemonProtocol.Distinct, ItemsOf;
    var now := items[..i] + items[i + 1..];
    StillThere(nodes, items, i);
    ItemsCut(nodes, items, i);
    forall id | id in now
      ensures id in nodeOf - {items[i]} && nodeOf[id] in list.nodes && nodeOf[id].item == id
    {
      assert id in items && id != items[i];
      assert nodeOf[id] in nodes && nodeOf[id].item != items[i];
    }
  }

  lemma ItemsCut(nodes: seq<Node<Session>>, items: seq<Session>, i: nat)
    requires |nodes| == |items| && i < |nodes| && forall j :: 0 <= j < |nodes| ==> nodes[j].item == items[j]
    ensures ItemsOf(nodes[..i] + nodes[i + 1..]) == items[..i] + items[i + 1..]
  {
  }

  /** What is not unlinked is still in the list. */
  lemma StillThere(nodes: seq<Node<Session>>, items: seq<Session>, i: nat)
    requires |nodes| == |items| && i < |nodes| && DaemonProtocol.Distinct(items)
    requires forall j :: 0 <= j < |nodes| ==> nodes[j].item == items[j]
    ensures forall n :: n in nodes && n.item != items[i] ==> n in nodes[..i] + nodes[i + 1..]
    ensures forall id :: id in items[..i] + items[i + 1..] ==> id in items && id != items[i]
    ensures forall n :: n in nodes[..i] + nodes[i + 1..] ==> n in nodes
  {
    assert nodes == nodes[..i] + [nodes[i]] + nodes[i + 1..];
  }

  /** The sessions in the list have been invalidated, the others have not. */
  ghost predicate PartlyInvalid(was: map<Session, Local>, now: map<Session, Local>, done: seq<Session>) {
    && now.Keys == was.Keys
    && forall id :: id in was ==> now[id] == if id in done then Invalidated(was[id]) else was[id]
  }

  lemma NoneInvalid(was: map<Session, Local>)
    ensures PartlyInvalid(was, was, [])
  {
  }

  lemma AllInvalid(was: map<Session, Local>, now: map<Session, Local>, done: seq<Session>)
    requires PartlyInvalid(was, now, done) && forall id :: id in was ==> id in done
    ensures now == map id | id in was :: Invalidated(was[id])
  {
  }

  lemma InvalidNext(was: map<Session, Local>, now: map<Session, Local>, done: seq<Session>, id: Session)
    requires PartlyInvalid(was, now, done) && id in was && id !in done
    ensures id in now && now[id] == was[id]
    ensures PartlyInvalid(was, now[id := Invalidated(was[id])], done + [id])
  {
  }

  lemma ListIsLocals(s: State)
    requires Inv(s)
    ensures forall id :: id in s.locals <==> id in s.localList
    ensures DaemonProtocol.Distinct(s.localList)
  {
    hide OwnerInv, ValidityInv, FailingInv, ReleaseInv, EventInv;
  }

  lemma NoIdle(locals: map<Session, Local>)
    ensures forall list: seq<Session> :: list == [] ==> IdleContexts(locals, list) == []
  {
  }

  lemma {:induction false} IdleAppend(locals: map<Session, Local>, list: seq<Session>, id: Session)
    ensures IdleContexts(locals, list + [id]) == IdleContexts(locals, list) + IdleContexts(locals, [id])
    decreases list
  {
    if list == [] {
      assert list + [id] == [id];
    } else {
      assert (list + [id])[1..] == list[1..] + [id];
      IdleAppend(locals, list[1..], id);
    }
  }

  lemma IdleNext(locals: map<Session, Local>, list: seq<Session>, i: nat)
    requires i < |list| && list[i] in locals
    ensures var l := locals[list[i]];
            IdleContexts(locals, list[..i + 1]) ==
            IdleContexts(locals, list[..i]) + (if !l.inUse && l.ctx.Some? then [l.ctx.value] else [])
  {
    assert list[..i + 1] == list[..i] + [list[i]];
    IdleAppend(locals, list[..i], list[i]);
    assert [list[i]][1..] == [];
  }
}
