/** Game objects and their owner.  An object records the groups it joined and a
    killed flag; the manager owns every object and, once per frame, lets each owned
    object synchronise its groups and then erases the objects that were killed.

    Objects are named by handles (`ObjId`) and groups by `GroupId`.  A `World`
    holds every group and every owned object; the manager singleton is this one
    value, threaded through the operations by the caller. */
module Registry {
  import opened Groups

  type GroupId = nat

  /** What an object knows about itself: the groups it joined and whether it was killed. */
  datatype ObjectState = ObjectState(groups: set<GroupId>, killed: bool)

  datatype World = World(
    groups: map<GroupId, Group>,
    objects: map<ObjId, ObjectState>,   // the owned objects
    nextId: ObjId)                      // every handle issued so far is below this

  /** The hash-set enumeration order of each group's queues (see `Groups.Sync`). */
  type Orders = map<GroupId, seq<ObjId>>

  function OrderOf(orders: Orders, g: GroupId): seq<ObjId>
  {
    if g in orders then orders[g] else []
  }

  /** A newly constructed object has joined nothing and is not killed. */
  const NewObject: ObjectState := ObjectState({}, false)

  function IsKilled(w: World, id: ObjId): bool
    requires id in w.objects
  {
    w.objects[id].killed
  }

  /** Handles are issued in increasing order, so a new handle is never owned already. */
  predicate IssuedBelow(w: World)
  {
    forall id :: id in w.objects ==> id < w.nextId
  }

  /** `x` is owned and records `g` among the groups it joined. */
  predicate Joined(w: World, x: ObjId, g: GroupId)
  {
    x in w.objects && g in w.objects[x].groups
  }

  // ---------------------------------------------------------------------------
  // Object and manager operations

  /** The manager takes ownership of one new object and hands back its handle. */
  function CreateGameObject(w: World): (r: (World, ObjId))
    requires IssuedBelow(w)
    ensures r.1 !in w.objects && r.1 in r.0.objects
    ensures r.0.objects.Keys == w.objects.Keys + {r.1}
    ensures |r.0.objects| == |w.objects| + 1
    ensures !IsKilled(r.0, r.1) && r.0.objects[r.1].groups == {}
    ensures forall id :: id in w.objects ==> r.0.objects[id] == w.objects[id]
    ensures r.0.groups == w.groups && IssuedBelow(r.0)
  {
    var id := w.nextId;
    (World(w.groups, w.objects[id := NewObject], id + 1), id)
  }

  /** Join `g`: the object records the group and asks the group to add it.  The
      object must not have been killed. */
  function AddToGroup(w: World, id: ObjId, g: GroupId): (r: World)
    requires id in w.objects && !IsKilled(w, id) && g in w.groups
    ensures r.objects.Keys == w.objects.Keys && r.groups.Keys == w.groups.Keys
    ensures r.objects[id] == ObjectState(w.objects[id].groups + {g}, false)
    ensures forall o :: o in w.objects && o != id ==> r.objects[o] == w.objects[o]
    ensures forall h :: h in w.groups && h != g ==> r.groups[h] == w.groups[h]
    ensures id !in r.groups[g].removalQueue
    ensures id in r.groups[g].list || id in r.groups[g].addQueue
    ensures w.groups[g].list != [] ==> r.groups[g].list == w.groups[g].list
  {
    var o := w.objects[id];
    w.(objects := w.objects[id := o.(groups := o.groups + {g})],
       groups := w.groups[g := DeferredAdd(w.groups[g], id)])
  }

  /** Leave `g`, as written: the request sent to the group is an ADD, and the
      recorded groups are left as they are. */
  function RemoveFromGroupAsWritten(w: World, id: ObjId, g: GroupId): (r: World)
    requires id in w.objects && !IsKilled(w, id) && g in w.groups
    ensures r.objects == w.objects && r.groups.Keys == w.groups.Keys
    ensures forall h :: h in w.groups && h != g ==> r.groups[h] == w.groups[h]
    ensures id !in r.groups[g].removalQueue
    ensures id in r.groups[g].list || id in r.groups[g].addQueue
  {
    w.(groups := w.groups[g := DeferredAdd(w.groups[g], id)])
  }

  /** Leave `g`, as evidently intended: queue a removal.  The record of `g` is
      dropped by the object's next synchronisation, when `g` no longer contains it. */
  function RemoveFromGroup(w: World, id: ObjId, g: GroupId): (r: World)
    requires id in w.objects && !IsKilled(w, id) && g in w.groups
    ensures r.objects == w.objects && r.groups.Keys == w.groups.Keys
    ensures forall h :: h in w.groups && h != g ==> r.groups[h] == w.groups[h]
    ensures id in r.groups[g].removalQueue && id !in r.groups[g].addQueue
    ensures r.groups[g].list == w.groups[g].list
  {
    w.(groups := w.groups[g := DeferredRemove(w.groups[g], id)])
  }

  /** Queue the object's removal from every group it recorded, then mark it killed. */
  function Kill(w: World, id: ObjId): (r: World)
    requires id in w.objects
    ensures r.objects.Keys == w.objects.Keys && r.groups.Keys == w.groups.Keys
    ensures r.objects[id] == w.objects[id].(killed := true)
    ensures forall o :: o in w.objects && o != id ==> r.objects[o] == w.objects[o]
    ensures forall g :: g in w.groups && g in w.objects[id].groups ==>
      && id in r.groups[g].removalQueue && id !in r.groups[g].addQueue
      && r.groups[g].list == w.groups[g].list && r.groups[g].members == w.groups[g].members
    ensures forall g :: g in w.groups && g !in w.objects[id].groups ==> r.groups[g] == w.groups[g]
  {
    var rec := w.objects[id].groups;
    World(map g | g in w.groups :: if g in rec then DeferredRemove(w.groups[g], id) else w.groups[g],
          w.objects[id := w.objects[id].(killed := true)],
          w.nextId)
  }

  /** The object's own synchronisation: every recorded group commits its pending
      requests, then the object forgets each recorded group that no longer
      contains it. */
  function SyncObject(w: World, id: ObjId, orders: Orders): (r: World)
    requires id in w.objects
    ensures r.objects.Keys == w.objects.Keys && r.groups.Keys == w.groups.Keys && r.nextId == w.nextId
    ensures forall g :: g in w.groups && g in w.objects[id].groups ==>
      r.groups[g].addQueue == {} && r.groups[g].removalQueue == {}
    ensures forall g :: g in w.groups && g !in w.objects[id].groups ==> r.groups[g] == w.groups[g]
    ensures r.objects[id].killed == w.objects[id].killed
    ensures forall g :: g in r.objects[id].groups <==>
      g in w.objects[id].groups && g in w.groups && Contains(r.groups[g], id)
    ensures forall o :: o in w.objects && o != id ==> r.objects[o] == w.objects[o]
  {
    var rec := w.objects[id].groups;
    var gs := map g | g in w.groups :: if g in rec then Sync(w.groups[g], OrderOf(orders, g)) else w.groups[g];
    var kept := set g | g in rec && g in gs && Contains(gs[g], id);
    World(gs, w.objects[id := w.objects[id].(groups := kept)], w.nextId)
  }

  /** One turn of the manager's loop: the object synchronises, and is erased from
      the owned set if it is killed. */
  function ManagerStep(w: World, id: ObjId, orders: Orders): World
  {
    if id !in w.objects then w
    else
      var w1 := SyncObject(w, id, orders);
      if w1.objects[id].killed then w1.(objects := w1.objects - {id}) else w1
  }

  /** The manager's synchronisation.  `ids` is the order in which the owned set
      presents its objects; each object is visited once. */
  function ManagerSync(w: World, ids: seq<ObjId>, orders: Orders): (r: World)
    ensures r.objects.Keys <= w.objects.Keys && r.groups.Keys == w.groups.Keys
    ensures r.nextId == w.nextId
    decreases |ids|
  {
    if ids == [] then w
    else ManagerStep(ManagerSync(w, ids[..|ids| - 1], orders), ids[|ids| - 1], orders)
  }

  // ---------------------------------------------------------------------------
  // The manager's synchronisation in closed form

  /** Some object visited in `ids` recorded `g`. */
  predicate Touched(w: World, ids: seq<ObjId>, g: GroupId)
  {
    exists i :: 0 <= i < |ids| && Joined(w, ids[i], g)
  }

  /** The recorded groups that still contain `id` once synchronised. */
  function Kept(w: World, id: ObjId, orders: Orders): set<GroupId>
    requires id in w.objects
  {
    set g | g in w.objects[id].groups && g in w.groups && Contains(Sync(w.groups[g], OrderOf(orders, g)), id)
  }

  /** The world after the manager visited `ids`: each group recorded by a visited
      object is synchronised once; a visited object is erased iff it is killed and
      otherwise keeps exactly its recorded groups that still contain it; everything
      else is as before. */
  function Synced(w: World, ids: seq<ObjId>, orders: Orders): World
  {
    World(
      map g | g in w.groups :: if Touched(w, ids, g) then Sync(w.groups[g], OrderOf(orders, g)) else w.groups[g],
      map id | id in w.objects && !(id in ids && w.objects[id].killed) ::
        if id in ids then w.objects[id].(groups := Kept(w, id, orders)) else w.objects[id],
      w.nextId)
  }

  lemma TouchedStep(w: World, ids: seq<ObjId>)
    requires ids != []
    ensures forall g :: Touched(w, ids, g) <==> Touched(w, ids[..|ids| - 1], g) || Joined(w, ids[|ids| - 1], g)
  {
    var p := ids[..|ids| - 1];
    forall g | Touched(w, ids, g)
      ensures Touched(w, p, g) || Joined(w, ids[|ids| - 1], g)
    {
      var i :| 0 <= i < |ids| && Joined(w, ids[i], g);
      if i < |p| {
        assert Joined(w, p[i], g);
      }
    }
    forall g | Touched(w, p, g)
      ensures Touched(w, ids, g)
    {
      var i :| 0 <= i < |p| && Joined(w, p[i], g);
      assert Joined(w, ids[i], g);
    }
    forall g | Joined(w, ids[|ids| - 1], g)
      ensures Touched(w, ids, g)
    {
    }
  }

  /** Visiting one more object, not visited before, extends the closed form. */
  lemma SyncedStep(w: World, ids: seq<ObjId>, orders: Orders)
    requires NoDup(ids) && ids != []
    ensures ManagerStep(Synced(w, ids[..|ids| - 1], orders), ids[|ids| - 1], orders) == Synced(w, ids, orders)
  {
    SyncedStepGroups(w, ids, orders);
    SyncedStepObjects(w, ids, orders);
  }

  lemma SyncedStepGroups(w: World, ids: seq<ObjId>, orders: Orders)
    requires NoDup(ids) && ids != []
    ensures ManagerStep(Synced(w, ids[..|ids| - 1], orders), ids[|ids| - 1], orders).groups == Synced(w, ids, orders).groups
  {
    var p := ids[..|ids| - 1];
    var x := ids[|ids| - 1];
    assert x !in p;
    var v := Synced(w, p, orders);
    var s := Synced(w, ids, orders);
    TouchedStep(w, ids);
    if x !in w.objects {
      assert forall g :: !Joined(w, x, g);
      assert s.groups == v.groups;
    } else {
      assert v.objects[x] == w.objects[x];
      var w1 := SyncObject(v, x, orders);
      forall g | g in w.groups
        ensures w1.groups[g] == s.groups[g]
      {
        if Joined(w, x, g) && Touched(w, p, g) {
          SyncIdempotent(w.groups[g], OrderOf(orders, g), OrderOf(orders, g));
        }
      }
      assert w1.groups == s.groups;
    }
  }

  lemma SyncedStepObjects(w: World, ids: seq<ObjId>, orders: Orders)
    requires NoDup(ids) && ids != []
    ensures ManagerStep(Synced(w, ids[..|ids| - 1], orders), ids[|ids| - 1], orders).objects == Synced(w, ids, orders).objects
  {
    var p := ids[..|ids| - 1];
    var x := ids[|ids| - 1];
    assert x !in p;
    var v := Synced(w, p, orders);
    var s := Synced(w, ids, orders);
    assert forall id :: id in ids <==> id in p || id == x;
    if x !in w.objects {
      assert s.objects == v.objects;
    } else {
      assert v.objects[x] == w.objects[x];
      StepKept(w, ids, orders);
      var r := ManagerStep(v, x, orders);
      forall id
        ensures id in r.objects <==> id in s.objects
      {
      }
      forall id | id in r.objects
        ensures r.objects[id] == s.objects[id]
      {
        if id != x {
          assert r.objects[id] == v.objects[id];
        }
      }
    }
  }

  /** The visited object keeps exactly its recorded groups that still contain it. */
  lemma StepKept(w: World, ids: seq<ObjId>, orders: Orders)
    requires NoDup(ids) && ids != [] && ids[|ids| - 1] in w.objects
    ensures var v := Synced(w, ids[..|ids| - 1], orders);
      ids[|ids| - 1] in v.objects && SyncObject(v, ids[|ids| - 1], orders).objects[ids[|ids| - 1]].groups == Kept(w, ids[|ids| - 1], orders)
  {
    var x := ids[|ids| - 1];
    assert x !in ids[..|ids| - 1];
    SyncedStepGroups(w, ids, orders);
  }

  lemma {:induction false} ManagerSyncClosedForm(w: World, ids: seq<ObjId>, orders: Orders)
    requires NoDup(ids)
    ensures ManagerSync(w, ids, orders) == Synced(w, ids, orders)
    decreases |ids|
  {
    if ids == [] {
      assert Synced(w, ids, orders).groups == w.groups;
      assert Synced(w, ids, orders).objects == w.objects;
    } else {
      var p := ids[..|ids| - 1];
      assert NoDup(p);
      ManagerSyncClosedForm(w, p, orders);
      SyncedStep(w, ids, orders);
    }
  }

  /** The manager's synchronisation, as the owner sees it: when `ids` lists every
      owned object once, the owned set afterwards is exactly the objects that were
      not killed (the killed flag alone decides), every survivor is still a member
      of each group it records, and each group is synchronised at most once. */
  lemma ManagerSyncProperties(w: World, ids: seq<ObjId>, orders: Orders)
    requires NoDup(ids) && Elems(ids) == w.objects.Keys
    ensures var r := ManagerSync(w, ids, orders);
      && r.objects.Keys == (set id | id in w.objects && !w.objects[id].killed)
      && (forall id :: id in r.objects ==> r.objects[id].groups <= w.objects[id].groups)
      && (forall id, g :: id in r.objects && g in r.objects[id].groups ==> g in r.groups && Contains(r.groups[g], id))
      && (forall g :: g in w.groups ==>
            r.groups[g] == w.groups[g] || r.groups[g] == Sync(w.groups[g], OrderOf(orders, g)))
  {
    ManagerSyncClosedForm(w, ids, orders);
    var r := ManagerSync(w, ids, orders);
    forall id, g | id in r.objects && g in r.objects[id].groups
      ensures g in r.groups && Contains(r.groups[g], id)
    {
      assert id in ids;
      assert Touched(w, ids, g) by {
        var i :| 0 <= i < |ids| && ids[i] == id;
        assert Joined(w, ids[i], g);
      }
    }
  }

  // ---------------------------------------------------------------------------
  // The world invariant

  /** Every group is valid; recorded groups exist; every object a group commits or
      is about to add is owned and records that group; a killed object is queued
      for removal, and not for addition, in every group it records. */
  ghost predicate WorldInv(w: World)
  {
    && IssuedBelow(w)
    && (forall g :: g in w.groups ==> Valid(w.groups[g]))
    && (forall id :: id in w.objects ==> w.objects[id].groups <= w.groups.Keys)
    && (forall g, x :: g in w.groups && x in w.groups[g].members ==> Joined(w, x, g))
    && (forall g, x :: g in w.groups && x in w.groups[g].addQueue ==> Joined(w, x, g))
    && (forall id, g :: id in w.objects && w.objects[id].killed && g in w.objects[id].groups && g in w.groups ==>
          id in w.groups[g].removalQueue && id !in w.groups[g].addQueue)
  }

  /** No group's committed list or add queue refers to an object the manager does
      not own. */
  ghost predicate NoDangling(w: World)
  {
    forall g, x :: g in w.groups && (x in w.groups[g].list || x in w.groups[g].addQueue) ==> x in w.objects
  }

  lemma InvNoDangling(w: World)
    requires WorldInv(w)
    ensures NoDangling(w)
  {
    forall g, x | g in w.groups && x in w.groups[g].list
      ensures x in w.objects
    {
      assert x in Elems(w.groups[g].list);
    }
  }

  lemma CreateKeepsInv(w: World)
    requires WorldInv(w)
    ensures WorldInv(CreateGameObject(w).0)
  {
  }

  lemma AddToGroupKeepsInv(w: World, id: ObjId, g: GroupId)
    requires WorldInv(w) && id in w.objects && !IsKilled(w, id) && g in w.groups
    ensures WorldInv(AddToGroup(w, id, g))
  {
    DeferredAddKeepsValid(w.groups[g], id);
  }

  lemma RemoveFromGroupKeepsInv(w: World, id: ObjId, g: GroupId)
    requires WorldInv(w) && id in w.objects && !IsKilled(w, id) && g in w.groups
    ensures WorldInv(RemoveFromGroup(w, id, g))
  {
    DeferredRemoveKeepsValid(w.groups[g], id);
  }

  lemma KillKeepsInv(w: World, id: ObjId)
    requires WorldInv(w) && id in w.objects
    ensures WorldInv(Kill(w, id))
  {
    var r := Kill(w, id);
    forall g | g in w.groups
      ensures Valid(r.groups[g])
    {
      DeferredRemoveKeepsValid(w.groups[g], id);
    }
    forall g, x | g in r.groups && x in r.groups[g].addQueue
      ensures Joined(r, x, g)
    {
      assert x in w.groups[g].addQueue;
    }
    forall o, g | o in r.objects && r.objects[o].killed && g in r.objects[o].groups && g in r.groups
      ensures o in r.groups[g].removalQueue && o !in r.groups[g].addQueue
    {
      if o != id {
        assert w.objects[o].killed && g in w.objects[o].groups;
      }
    }
  }

  /** Each group's enumeration covers its queues. */
  predicate OrdersCover(w: World, orders: Orders)
  {
    forall g :: g in w.groups ==> Covers(OrderOf(orders, g), w.groups[g])
  }

  /** The manager's synchronisation keeps the invariant, so afterwards no group
      refers to an erased object, although the erasure itself never consults the
      groups. */
  lemma ManagerSyncKeepsInv(w: World, ids: seq<ObjId>, orders: Orders)
    requires WorldInv(w) && OrdersCover(w, orders)
    requires NoDup(ids) && Elems(ids) == w.objects.Keys
    ensures WorldInv(ManagerSync(w, ids, orders))
    ensures NoDangling(ManagerSync(w, ids, orders))
  {
    ManagerSyncClosedForm(w, ids, orders);
    var r := ManagerSync(w, ids, orders);
    forall g, x | g in w.groups && (x in w.groups[g].members || x in w.groups[g].addQueue)
      ensures Touched(w, ids, g)
    {
      assert Joined(w, x, g);
      var i :| 0 <= i < |ids| && ids[i] == x;
      assert Joined(w, ids[i], g);
    }
    forall g | g in w.groups
      ensures Valid(r.groups[g])
    {
      if Touched(w, ids, g) {
        SyncSpec(w.groups[g], OrderOf(orders, g));
      }
    }
    forall g, x | g in r.groups && (x in r.groups[g].members || x in r.groups[g].addQueue)
      ensures Joined(r, x, g)
    {
      assert Touched(w, ids, g);
      var g0 := w.groups[g];
      SyncSpec(g0, OrderOf(orders, g));
      assert x in (g0.members - g0.removalQueue) + g0.addQueue;
      assert Joined(w, x, g);
      assert !w.objects[x].killed;
      assert x in ids;
      assert g in Kept(w, x, orders);
    }
    InvNoDangling(r);
  }

  /** Killing an object and then synchronising it leaves it recording no group and
      contained in none of the groups it had recorded. */
  lemma KillThenSync(w: World, id: ObjId, orders: Orders)
    requires WorldInv(w) && id in w.objects && OrdersCover(Kill(w, id), orders)
    ensures var r := SyncObject(Kill(w, id), id, orders);
      && r.objects[id].groups == {}
      && forall g :: g in w.objects[id].groups ==> !Contains(r.groups[g], id)
  {
    var k := Kill(w, id);
    KillKeepsInv(w, id);
    forall g | g in w.objects[id].groups
      ensures !Contains(SyncObject(k, id, orders).groups[g], id)
    {
      SyncSpec(k.groups[g], OrderOf(orders, g));
    }
  }

  // ---------------------------------------------------------------------------
  // Leaving a group, as written

  /** One owned object, one empty group, nothing joined. */
  const Lone: World := World(map[0 := EmptyGroup], map[0 := NewObject], 1)

  /** As written, asking to leave a group the object never joined commits it to
      that group (the group is empty, so the add is immediate) without the object
      recording it; killing the object and synchronising then erases the object
      while the group still lists it. */
  lemma RemoveFromGroupAsWrittenDangles()
    ensures WorldInv(Lone)
    ensures var w1 := RemoveFromGroupAsWritten(Lone, 0, 0);
      && w1.groups[0].list == [0]
      && !WorldInv(w1)
      && var w2 := ManagerSync(Kill(w1, 0), [0], map[]);
         && 0 !in w2.objects && w2.groups[0].list == [0] && !NoDangling(w2)
  {
    var w1 := RemoveFromGroupAsWritten(Lone, 0, 0);
    assert w1.groups[0] == Group([0], {0}, {}, {});
    assert !Joined(w1, 0, 0);
    var k := Kill(w1, 0);
    assert k.groups[0] == w1.groups[0];
    var s := SyncObject(k, 0, map[]);
    assert s.groups[0] == w1.groups[0];
    assert [0][..0] == [];
    assert ManagerSync(k, [0], map[]) == ManagerStep(k, 0, map[]);
  }

  /** As written, leaving a group the object is committed to leaves it committed
      after the next synchronisation; the corrected request takes it out. */
  lemma RemoveFromGroupAsWrittenStays(w: World, id: ObjId, g: GroupId, order: seq<ObjId>)
    requires WorldInv(w) && id in w.objects && !IsKilled(w, id) && g in w.groups
    requires Contains(w.groups[g], id) && Covers(order, w.groups[g]) && id in order
    ensures Contains(Sync(RemoveFromGroupAsWritten(w, id, g).groups[g], order), id)
    ensures !Contains(Sync(RemoveFromGroup(w, id, g).groups[g], order), id)
  {
    var g0 := w.groups[g];
    DeferredAddKeepsValid(g0, id);
    SyncSpec(DeferredAdd(g0, id), order);
    DeferredRemoveKeepsValid(g0, id);
    SyncSpec(DeferredRemove(g0, id), order);
  }
}
