/** A membership group: an ordered list of object handles, the same handles as a set
    for membership tests, and two deferred-change queues.  Requests to add or remove
    are queued and only committed by `Sync`, so that a pass over the committed list
    can run while objects ask to join or leave.

    The C++ `unordered_set` containers have no defined iteration order; where the
    order matters (the batch of queued additions appended by `Sync`) the model takes
    it as a parameter `order`, an enumeration that lists every queued handle once. */
module Groups {

  import opened Wrappers

  /** A non-owning handle to a game object. */
  type ObjId = nat

  datatype Group = Group(
    list: seq<ObjId>,            // committed objects, in insertion (or sort) order
    members: set<ObjId>,         // the committed objects as a set
    addQueue: set<ObjId>,        // pending additions
    removalQueue: set<ObjId>)    // pending removals

  const EmptyGroup: Group := Group([], {}, {}, {})

  predicate NoDup<T(==)>(s: seq<T>)
  {
    forall i, j :: 0 <= i < j < |s| ==> s[i] != s[j]
  }

  function Elems<T>(s: seq<T>): set<T>
  {
    set x | x in s
  }

  /** The group invariant: the list holds each committed handle once, the set holds
      exactly the handles of the list, and no handle is pending both ways. */
  predicate Valid(g: Group)
  {
    && NoDup(g.list)
    && Elems(g.list) == g.members
    && g.addQueue !! g.removalQueue
  }

  predicate IsMarkedForRemoval(g: Group, x: ObjId)
  {
    x in g.removalQueue
  }

  // ---------------------------------------------------------------------------
  // Requests

  /** Ask for `x` to join.  A pending removal of `x` is cancelled.  Unless `x` is
      already queued, it is committed at once when the list is empty (no pass can be
      in flight over an empty list) and queued otherwise. */
  function DeferredAdd(g: Group, x: ObjId): (r: Group)
    ensures r.removalQueue == g.removalQueue - {x}
    ensures x in g.addQueue ==>
      r.list == g.list && r.members == g.members && r.addQueue == g.addQueue
    ensures x !in g.addQueue && g.list == [] ==>
      r.list == [x] && r.members == g.members + {x} && r.addQueue == g.addQueue
    ensures x !in g.addQueue && g.list != [] ==>
      r.list == g.list && r.members == g.members && r.addQueue == g.addQueue + {x}
  {
    var g1 := g.(removalQueue := g.removalQueue - {x});
    if x in g1.addQueue then g1
    else if g1.list == [] then g1.(list := [x], members := g1.members + {x})
    else g1.(addQueue := g1.addQueue + {x})
  }

  /** Ask for `x` to leave: a pending addition of `x` is cancelled and `x` is
      queued for removal, whether or not it is a member. */
  function DeferredRemove(g: Group, x: ObjId): (r: Group)
    ensures r.list == g.list && r.members == g.members
    ensures r.addQueue == g.addQueue - {x}
    ensures r.removalQueue == g.removalQueue + {x}
  {
    g.(addQueue := g.addQueue - {x}, removalQueue := g.removalQueue + {x})
  }

  /** Membership reads the committed set only; pending requests are invisible. */
  function Contains(g: Group, x: ObjId): (b: bool)
    ensures Valid(g) ==> (b <==> x in g.list)
  {
    x in g.members
  }

  lemma DeferredAddKeepsValid(g: Group, x: ObjId)
    requires Valid(g)
    ensures Valid(DeferredAdd(g, x))
  {
  }

  lemma DeferredRemoveKeepsValid(g: Group, x: ObjId)
    requires Valid(g)
    ensures Valid(DeferredRemove(g, x))
  {
  }

  /** While the list is non-empty neither request touches it, so positions held by a
      pass in flight stay valid. */
  lemma RequestsKeepNonEmptyList(g: Group, x: ObjId)
    requires g.list != []
    ensures DeferredAdd(g, x).list == g.list
    ensures DeferredRemove(g, x).list == g.list
  {
  }

  /** After either request the object is pending at most one way. */
  lemma RequestsNeverQueueBothWays(g: Group, x: ObjId)
    ensures !(x in DeferredAdd(g, x).addQueue && x in DeferredAdd(g, x).removalQueue)
    ensures !(x in DeferredRemove(g, x).addQueue && x in DeferredRemove(g, x).removalQueue)
  {
  }

  // ---------------------------------------------------------------------------
  // Filtering helpers

  /** The elements of `s` that are not in `d`, in order. */
  function Unmarked(s: seq<ObjId>, d: set<ObjId>): (r: seq<ObjId>)
    ensures |r| <= |s|
  {
    if s == [] then []
    else (if s[0] in d then [] else [s[0]]) + Unmarked(s[1..], d)
  }

  lemma {:induction false} UnmarkedContents(s: seq<ObjId>, d: set<ObjId>)
    ensures forall x :: x in Unmarked(s, d) <==> x in s && x !in d
  {
    if s != [] {
      UnmarkedContents(s[1..], d);
      assert forall x :: x in s <==> x == s[0] || x in s[1..];
    }
  }

  lemma {:induction false} UnmarkedNoDup(s: seq<ObjId>, d: set<ObjId>)
    requires NoDup(s)
    ensures NoDup(Unmarked(s, d))
  {
    if s != [] {
      UnmarkedNoDup(s[1..], d);
      UnmarkedContents(s[1..], d);
      assert s[0] !in s[1..];
    }
  }

  lemma {:induction false} UnmarkedNothing(s: seq<ObjId>, d: set<ObjId>)
    requires forall x :: x in s ==> x !in d
    ensures Unmarked(s, d) == s
  {
    if s != [] {
      UnmarkedNothing(s[1..], d);
    }
  }

  lemma {:induction false} UnmarkedTwice(s: seq<ObjId>, a: set<ObjId>, b: set<ObjId>)
    ensures Unmarked(Unmarked(s, a), b) == Unmarked(s, a + b)
  {
    if s != [] {
      UnmarkedTwice(s[1..], a, b);
      var u := Unmarked(s, a);
      if s[0] !in a {
        assert u == [s[0]] + Unmarked(s[1..], a);
        assert u[0] == s[0] && u[1..] == Unmarked(s[1..], a);
        assert Unmarked(u, b) == (if s[0] in b then [] else [s[0]]) + Unmarked(u[1..], b);
      } else {
        assert u == Unmarked(s[1..], a);
      }
    }
  }

  lemma {:induction false} UnmarkedAppend(s: seq<ObjId>, t: seq<ObjId>, d: set<ObjId>)
    ensures Unmarked(s + t, d) == Unmarked(s, d) + Unmarked(t, d)
  {
    if s == [] {
      assert s + t == t;
    } else {
      assert (s + t)[1..] == s[1..] + t;
      UnmarkedAppend(s[1..], t, d);
    }
  }

  /** `a` occurs in `b` in order, possibly with gaps. */
  predicate Subsequence(a: seq<ObjId>, b: seq<ObjId>)
    decreases |b|
  {
    a == [] || (b != [] && (Subsequence(a, b[1..]) || (a[0] == b[0] && Subsequence(a[1..], b[1..]))))
  }

  lemma {:induction false} UnmarkedIsSubsequence(s: seq<ObjId>, d: set<ObjId>)
    ensures Subsequence(Unmarked(s, d), s)
    decreases |s|
  {
    if s != [] {
      UnmarkedIsSubsequence(s[1..], d);
      var u := Unmarked(s, d);
      if s[0] !in d {
        assert u == [s[0]] + Unmarked(s[1..], d);
        assert u[0] == s[0] && u[1..] == Unmarked(s[1..], d);
      } else {
        assert u == Unmarked(s[1..], d);
      }
    }
  }

  // ---------------------------------------------------------------------------
  // Synchronisation

  /** `order` enumerates both queues: it is how the hash sets present their contents. */
  predicate Covers(order: seq<ObjId>, g: Group)
  {
    && NoDup(order)
    && (forall x :: x in g.addQueue ==> x in order)
    && (forall x :: x in g.removalQueue ==> x in order)
  }

  /** `std::find` then `erase`: drop the first occurrence of `x`, if any. */
  function EraseFirst(s: seq<ObjId>, x: ObjId): (r: seq<ObjId>)
  {
    if s == [] then []
    else if s[0] == x then s[1..]
    else [s[0]] + EraseFirst(s[1..], x)
  }

  datatype Committed = Committed(list: seq<ObjId>, members: set<ObjId>)

  /** The removal loop: each queued handle found in the list is erased from both
      the list and the set. */
  function RemovePass(c: Committed, order: seq<ObjId>, rq: set<ObjId>): Committed
    decreases |order|
  {
    if order == [] then c
    else
      var x := order[0];
      var c1 := if x in rq && x in c.list then Committed(EraseFirst(c.list, x), c.members - {x}) else c;
      RemovePass(c1, order[1..], rq)
  }

  /** The addition loop: each queued handle not already committed is appended. */
  function AddPass(c: Committed, order: seq<ObjId>, aq: set<ObjId>): Committed
    decreases |order|
  {
    if order == [] then c
    else
      var x := order[0];
      var c1 := if x in aq && x !in c.members then Committed(c.list + [x], c.members + {x}) else c;
      AddPass(c1, order[1..], aq)
  }

  /** Commit every pending request: removals first, then additions, then empty both
      queues.  The properties below assume `Covers(order, g)`: the enumeration is how
      the queues present themselves, so it lists each queued handle. */
  function Sync(g: Group, order: seq<ObjId>): (r: Group)
    ensures r.addQueue == {} && r.removalQueue == {}
  {
    var c1 := RemovePass(Committed(g.list, g.members), order, g.removalQueue);
    var c2 := AddPass(c1, order, g.addQueue);
    Group(c2.list, c2.members, {}, {})
  }

  /** The queued additions that `AddPass` appends, in enumeration order. */
  function Admitted(order: seq<ObjId>, aq: set<ObjId>, m: set<ObjId>): seq<ObjId>
  {
    if order == [] then []
    else (if order[0] in aq && order[0] !in m then [order[0]] else []) + Admitted(order[1..], aq, m)
  }

  lemma {:induction false} EraseFirstNoDup(s: seq<ObjId>, x: ObjId)
    requires NoDup(s)
    ensures EraseFirst(s, x) == Unmarked(s, {x})
  {
    if s != [] {
      if s[0] == x {
        assert x !in s[1..];
        UnmarkedNothing(s[1..], {x});
      } else {
        EraseFirstNoDup(s[1..], x);
      }
    }
  }

  /** The handles of `q` that `order` lists. */
  function Listed(order: seq<ObjId>, q: set<ObjId>): set<ObjId>
  {
    set x | x in order && x in q
  }

  lemma {:induction false} RemovePassFilters(c: Committed, order: seq<ObjId>, rq: set<ObjId>)
    requires NoDup(c.list) && Elems(c.list) == c.members && NoDup(order)
    ensures RemovePass(c, order, rq) == Committed(Unmarked(c.list, Listed(order, rq)), c.members - Listed(order, rq))
    decreases |order|
  {
    var d := Listed(order, rq);
    if order == [] {
      assert d == {};
      UnmarkedNothing(c.list, d);
    } else {
      var x := order[0];
      var rest := Listed(order[1..], rq);
      assert NoDup(order[1..]);
      ListedStep(order, rq);
      if x in rq && x in c.list {
        RemovedFirst(c, order, rq);
      } else {
        RemovePassFilters(c, order[1..], rq);
        if x in rq {
          assert x !in c.members;
          UnmarkedContents(c.list, rest);
          UnmarkedTwice(c.list, rest, {x});
          UnmarkedNothing(Unmarked(c.list, rest), {x});
          assert rest + {x} == d;
          assert c.members - rest == c.members - d;
        } else {
          assert rest == d;
        }
      }
    }
  }

  /** The step of `RemovePassFilters` where the first listed handle is committed. */
  lemma {:induction false} RemovedFirst(c: Committed, order: seq<ObjId>, rq: set<ObjId>)
    requires NoDup(c.list) && Elems(c.list) == c.members && NoDup(order)
    requires order != [] && order[0] in rq && order[0] in c.list
    ensures RemovePass(c, order, rq) == Committed(Unmarked(c.list, Listed(order, rq)), c.members - Listed(order, rq))
    decreases |order|, 0
  {
    var x := order[0];
    var rest := Listed(order[1..], rq);
    assert NoDup(order[1..]);
    ListedStep(order, rq);
    var c1 := Committed(EraseFirst(c.list, x), c.members - {x});
    EraseFirstNoDup(c.list, x);
    UnmarkedNoDup(c.list, {x});
    UnmarkedContents(c.list, {x});
    assert Elems(c1.list) == c1.members;
    RemovePassFilters(c1, order[1..], rq);
    UnmarkedTwice(c.list, {x}, rest);
    assert c.members - {x} - rest == c.members - Listed(order, rq);
  }

  lemma ListedStep(order: seq<ObjId>, q: set<ObjId>)
    requires order != []
    ensures Listed(order, q) == (if order[0] in q then {order[0]} else {}) + Listed(order[1..], q)
  {
    assert forall y :: y in order <==> y == order[0] || y in order[1..];
  }

  lemma {:induction false} AddPassAppends(c: Committed, order: seq<ObjId>, aq: set<ObjId>)
    requires NoDup(order)
    ensures AddPass(c, order, aq) == Committed(c.list + Admitted(order, aq, c.members),
                                               c.members + Listed(order, aq))
    decreases |order|
  {
    if order != [] {
      var x := order[0];
      assert NoDup(order[1..]);
      assert x !in order[1..];
      var rest := order[1..];
      assert order == [x] + rest;
      if x in aq && x !in c.members {
        var c1 := Committed(c.list + [x], c.members + {x});
        AddPassAppends(c1, rest, aq);
        AdmittedIgnores(rest, aq, c.members, x);
        assert Admitted(order, aq, c.members) == [x] + Admitted(rest, aq, c.members);
        assert Listed(order, aq) == {x} + Listed(rest, aq);
        assert c.list + [x] + Admitted(rest, aq, c.members) == c.list + ([x] + Admitted(rest, aq, c.members));
      } else {
        AddPassAppends(c, rest, aq);
        assert Admitted(order, aq, c.members) == Admitted(rest, aq, c.members);
        assert c.members + Listed(order, aq) == c.members + Listed(rest, aq);
      }
    }
  }

  /** Adding to the committed set a handle that `order` does not list changes nothing. */
  lemma {:induction false} AdmittedIgnores(order: seq<ObjId>, aq: set<ObjId>, m: set<ObjId>, x: ObjId)
    requires x !in order
    ensures Admitted(order, aq, m + {x}) == Admitted(order, aq, m)
  {
    if order != [] {
      AdmittedIgnores(order[1..], aq, m, x);
    }
  }

  lemma {:induction false} AdmittedContents(order: seq<ObjId>, aq: set<ObjId>, m: set<ObjId>)
    requires NoDup(order)
    ensures NoDup(Admitted(order, aq, m))
    ensures forall x :: x in Admitted(order, aq, m) <==> x in order && x in aq && x !in m
  {
    if order != [] {
      assert NoDup(order[1..]);
      AdmittedContents(order[1..], aq, m);
      assert forall x :: x in order <==> x == order[0] || x in order[1..];
    }
  }

  /** What `Sync` commits, in closed form: the list loses every queued removal and
      gains, in enumeration order, every queued addition not already committed; the
      committed set becomes (members - removals) + additions; the invariant holds. */
  lemma SyncSpec(g: Group, order: seq<ObjId>)
    requires Valid(g) && Covers(order, g)
    ensures Sync(g, order).list
      == Unmarked(g.list, g.removalQueue) + Admitted(order, g.addQueue, g.members - g.removalQueue)
    ensures Sync(g, order).members == (g.members - g.removalQueue) + g.addQueue
    ensures Valid(Sync(g, order))
  {
    var c0 := Committed(g.list, g.members);
    RemovePassFilters(c0, order, g.removalQueue);
    assert Listed(order, g.removalQueue) == g.removalQueue;
    var c1 := Committed(Unmarked(g.list, g.removalQueue), g.members - g.removalQueue);
    assert RemovePass(c0, order, g.removalQueue) == c1;
    UnmarkedNoDup(g.list, g.removalQueue);
    UnmarkedContents(g.list, g.removalQueue);
    AddPassAppends(c1, order, g.addQueue);
    assert Listed(order, g.addQueue) == g.addQueue;
    var adm := Admitted(order, g.addQueue, c1.members);
    var c2 := Committed(c1.list + adm, c1.members + g.addQueue);
    assert AddPass(c1, order, g.addQueue) == c2;
    assert Sync(g, order) == Group(c2.list, c2.members, {}, {});
    AdmittedContents(order, g.addQueue, c1.members);
    var l := c1.list + adm;
    assert Elems(l) == c2.members;
    forall i, j | 0 <= i < j < |l|
      ensures l[i] != l[j]
    {
      if j < |c1.list| {
      } else if i >= |c1.list| {
        assert l[i] == adm[i - |c1.list|] && l[j] == adm[j - |c1.list|];
      } else {
        assert l[i] in c1.list;
        assert l[j] in adm;
      }
    }
  }

  /** With nothing queued, `Sync` changes nothing. */
  lemma SyncIdle(g: Group, order: seq<ObjId>)
    requires g.addQueue == {} && g.removalQueue == {}
    ensures Sync(g, order) == g
  {
    RemovePassIdle(Committed(g.list, g.members), order);
    AddPassIdle(Committed(g.list, g.members), order);
  }

  lemma {:induction false} RemovePassIdle(c: Committed, order: seq<ObjId>)
    ensures RemovePass(c, order, {}) == c
  {
    if order != [] {
      RemovePassIdle(c, order[1..]);
    }
  }

  lemma {:induction false} AddPassIdle(c: Committed, order: seq<ObjId>)
    ensures AddPass(c, order, {}) == c
  {
    if order != [] {
      AddPassIdle(c, order[1..]);
    }
  }

  /** A second `Sync` is a no-op. */
  lemma SyncIdempotent(g: Group, order: seq<ObjId>, order2: seq<ObjId>)
    ensures Sync(Sync(g, order), order2) == Sync(g, order)
  {
    SyncIdle(Sync(g, order), order2);
  }

  // ---------------------------------------------------------------------------
  // Iteration.  An iterator is a position in the committed list; it compares equal
  // to `End` when it is past the last element.

  /** Advance `pos` past every element currently queued for removal. */
  function SkipFrom(list: seq<ObjId>, rq: set<ObjId>, pos: nat): (r: nat)
    requires pos <= |list|
    ensures pos <= r <= |list|
    ensures r < |list| ==> list[r] !in rq
    ensures forall k :: pos <= k < r ==> list[k] in rq
    decreases |list| - pos
  {
    if pos < |list| && list[pos] in rq then SkipFrom(list, rq, pos + 1) else pos
  }

  function SkipMarked(g: Group, pos: nat): nat
    requires pos <= |g.list|
  {
    SkipFrom(g.list, g.removalQueue, pos)
  }

  /** `begin()` starts at the first committed element and does NOT skip it, even when
      it is queued for removal. */
  function Begin(g: Group): nat { 0 }

  function End(g: Group): nat { |g.list| }

  /** `operator++`: step once, then skip every element queued for removal. */
  function Advance(g: Group, pos: nat): (r: nat)
    requires pos < |g.list|
    ensures pos < r <= End(g)
    ensures r < End(g) ==> !IsMarkedForRemoval(g, g.list[r])
    ensures forall k :: pos < k < r ==> IsMarkedForRemoval(g, g.list[k])
  {
    SkipMarked(g, pos + 1)
  }

  /** `operator*`: the committed element at the position. */
  function Current(g: Group, pos: nat): ObjId
    requires pos < |g.list|
  {
    g.list[pos]
  }

  /** The elements a pass yields from position `pos` on, when nothing changes the
      group during the pass. */
  function YieldFrom(g: Group, pos: nat): seq<ObjId>
    requires pos <= |g.list|
    decreases |g.list| - pos
  {
    if pos == |g.list| then [] else [Current(g, pos)] + YieldFrom(g, Advance(g, pos))
  }

  /** A whole pass: `for (obj : group)`. */
  function Iterate(g: Group): seq<ObjId>
  {
    YieldFrom(g, Begin(g))
  }

  lemma {:induction false} YieldAfterSkip(g: Group, p: nat)
    requires p <= |g.list|
    ensures YieldFrom(g, SkipMarked(g, p)) == Unmarked(g.list[p..], g.removalQueue)
    decreases |g.list| - p
  {
    if p < |g.list| {
      assert g.list[p..][1..] == g.list[p + 1..];
      YieldAfterSkip(g, p + 1);
    }
  }

  /** A pass yields the first committed element unconditionally, then exactly the
      remaining committed elements that are not queued for removal, in list order. */
  lemma IterateClosedForm(g: Group)
    ensures Iterate(g) == if g.list == [] then [] else [g.list[0]] + Unmarked(g.list[1..], g.removalQueue)
  {
    if g.list != [] {
      YieldAfterSkip(g, 1);
    }
  }

  /** Consequences of the closed form: the pass is in list order; after the first
      element it never yields a marked element; it misses no unmarked element; the
      first element is yielded even when marked; and with the invariant it yields no
      element twice. */
  lemma IterateProperties(g: Group)
    ensures Subsequence(Iterate(g), g.list)
    ensures g.list != [] ==> |Iterate(g)| > 0 && Iterate(g)[0] == g.list[0]
    ensures forall k :: 1 <= k < |Iterate(g)| ==> !IsMarkedForRemoval(g, Iterate(g)[k])
    ensures forall x :: x in g.list && x !in g.removalQueue ==> x in Iterate(g)
    ensures forall x :: x in Iterate(g) ==> x in g.list
    ensures Valid(g) ==> NoDup(Iterate(g))
  {
    IterateClosedForm(g);
    if g.list != [] {
      var tail := g.list[1..];
      var u := Unmarked(tail, g.removalQueue);
      UnmarkedContents(tail, g.removalQueue);
      UnmarkedIsSubsequence(tail, g.removalQueue);
      assert Iterate(g)[1..] == u;
      assert Iterate(g)[0] == g.list[0];
      assert forall k :: 1 <= k < |Iterate(g)| ==> Iterate(g)[k] in u;
      assert forall x :: x in g.list ==> x == g.list[0] || x in tail;
      if Valid(g) {
        assert NoDup(tail);
        UnmarkedNoDup(tail, g.removalQueue);
        assert g.list[0] !in tail;
        assert g.list[0] !in u;
      }
    }
  }

  /** After any step, a pass never yields an element queued for removal. */
  lemma MarkedNotYielded(g: Group, pos: nat, x: ObjId)
    requires pos < |g.list| && x in g.removalQueue
    ensures x !in YieldFrom(g, Advance(g, pos))
  {
    var rest := g.list[pos + 1..];
    YieldAfterSkip(g, pos + 1);
    assert YieldFrom(g, Advance(g, pos)) == Unmarked(rest, g.removalQueue);
    UnmarkedContents(rest, g.removalQueue);
  }

  /** Once a pass has moved past position `pos`, a removal requested for any element
      makes the rest of the pass skip it (the skip reads the live queue), and the
      list the pass walks is unchanged by the request. */
  lemma RemovalDuringPassSkips(g: Group, pos: nat, x: ObjId)
    requires pos < |g.list|
    ensures DeferredRemove(g, x).list == g.list
    ensures x !in YieldFrom(DeferredRemove(g, x), Advance(DeferredRemove(g, x), pos))
  {
    MarkedNotYielded(DeferredRemove(g, x), pos, x);
  }

  /** A pass never comes back to an element it has already passed. */
  lemma NoRevisit(g: Group, pos: nat, k: nat)
    requires Valid(g) && k <= pos < |g.list|
    ensures g.list[k] !in YieldFrom(g, Advance(g, pos))
  {
    YieldAfterSkip(g, pos + 1);
    UnmarkedContents(g.list[pos + 1..], g.removalQueue);
  }

  // ---------------------------------------------------------------------------
  // Last request wins

  datatype Request = AddRequest(obj: ObjId) | RemoveRequest(obj: ObjId)

  function Apply(g: Group, r: Request): Group
  {
    match r
    case AddRequest(x) => DeferredAdd(g, x)
    case RemoveRequest(x) => DeferredRemove(g, x)
  }

  /** The group after a series of requests, oldest first. */
  function ApplyAll(g: Group, reqs: seq<Request>): Group
    decreases |reqs|
  {
    if reqs == [] then g else Apply(ApplyAll(g, reqs[..|reqs| - 1]), reqs[|reqs| - 1])
  }

  /** The most recent request about `x`: Some(true) for add, Some(false) for remove. */
  function LastRequest(reqs: seq<Request>, x: ObjId): Option<bool>
    decreases |reqs|
  {
    if reqs == [] then None
    else if reqs[|reqs| - 1].obj == x then Some(reqs[|reqs| - 1].AddRequest?)
    else LastRequest(reqs[..|reqs| - 1], x)
  }

  /** How the queues stand for `x` after the requests. */
  predicate PendingFor(g: Group, h: Group, reqs: seq<Request>, x: ObjId)
  {
    match LastRequest(reqs, x)
    case None => x !in h.addQueue && x !in h.removalQueue && (x in h.members <==> x in g.members)
    case Some(added) =>
      if added then x !in h.removalQueue && (x in h.addQueue || x in h.members)
      else x in h.removalQueue && x !in h.addQueue
  }

  lemma {:induction false} ApplyAllPending(g: Group, reqs: seq<Request>, x: ObjId)
    requires Valid(g) && g.addQueue == {} && g.removalQueue == {}
    ensures Valid(ApplyAll(g, reqs))
    ensures PendingFor(g, ApplyAll(g, reqs), reqs, x)
    decreases |reqs|
  {
    if reqs != [] {
      var prefix := reqs[..|reqs| - 1];
      ApplyAllPending(g, prefix, x);
      var h := ApplyAll(g, prefix);
      var r := reqs[|reqs| - 1];
      match r
      case AddRequest(y) => DeferredAddKeepsValid(h, y);
      case RemoveRequest(y) => DeferredRemoveKeepsValid(h, y);
    }
  }

  /** Starting from a synchronised group, the committed membership after a series of
      requests and one `Sync` is decided by the last request about each object (last
      write wins); objects with no request keep their membership. */
  lemma LastWriteWins(g: Group, reqs: seq<Request>, order: seq<ObjId>, x: ObjId)
    requires Valid(g) && g.addQueue == {} && g.removalQueue == {}
    requires Covers(order, ApplyAll(g, reqs))
    ensures Contains(Sync(ApplyAll(g, reqs), order), x)
      <==> (match LastRequest(reqs, x) case None => x in g.members case Some(added) => added)
  {
    ApplyAllPending(g, reqs, x);
    SyncSpec(ApplyAll(g, reqs), order);
  }

  // ---------------------------------------------------------------------------
  // Sorting.  The comparator is modelled as `key(a) < key(b)`; the model sorts by
  // insertion, which is one of the orders `std::sort` may produce.

  predicate SortedBy(s: seq<ObjId>, key: ObjId -> int)
  {
    forall i, j :: 0 <= i < j < |s| ==> key(s[i]) <= key(s[j])
  }

  /** Put `x` before the first element whose key is not below its own. */
  function Insert(x: ObjId, s: seq<ObjId>, key: ObjId -> int): (r: seq<ObjId>)
    ensures multiset(r) == multiset(s) + multiset{x}
  {
    if s == [] then [x]
    else if key(x) <= key(s[0]) then [x] + s
    else
      assert s == [s[0]] + s[1..];
      [s[0]] + Insert(x, s[1..], key)
  }

  /** Inserting into a sorted sequence keeps it sorted. */
  lemma {:induction false} InsertSorted(x: ObjId, s: seq<ObjId>, key: ObjId -> int)
    requires SortedBy(s, key)
    ensures SortedBy(Insert(x, s, key), key)
  {
    if s != [] && key(x) > key(s[0]) {
      InsertSorted(x, s[1..], key);
      var rest := Insert(x, s[1..], key);
      assert s == [s[0]] + s[1..];
      InsertElems(x, s[1..], key);
      var r := [s[0]] + rest;
      forall i, j | 0 <= i < j < |r|
        ensures key(r[i]) <= key(r[j])
      {
        assert r[j] == rest[j - 1];
        if i > 0 {
          assert r[i] == rest[i - 1];
        } else if r[j] != x {
          assert r[j] in s[1..];
          var k :| 0 <= k < |s[1..]| && s[1..][k] == r[j];
          assert s[k + 1] == r[j];
        }
      }
    }
  }

  lemma InsertElems(x: ObjId, s: seq<ObjId>, key: ObjId -> int)
    ensures forall y :: y in Insert(x, s, key) ==> y == x || y in s
  {
    forall y | y in Insert(x, s, key)
      ensures y == x || y in s
    {
      assert y in multiset(Insert(x, s, key));
    }
  }

  function InsertionSort(s: seq<ObjId>, key: ObjId -> int): (r: seq<ObjId>)
    ensures SortedBy(r, key)
    ensures multiset(r) == multiset(s)
  {
    if s == [] then []
    else
      assert s == [s[0]] + s[1..];
      var sorted := InsertionSort(s[1..], key);
      InsertSorted(s[0], sorted, key);
      Insert(s[0], sorted, key)
  }

  /** `Sort` reorders the committed list only. */
  function Sort(g: Group, key: ObjId -> int): (r: Group)
    ensures SortedBy(r.list, key)
    ensures multiset(r.list) == multiset(g.list)
    ensures r.members == g.members && r.addQueue == g.addQueue && r.removalQueue == g.removalQueue
  {
    g.(list := InsertionSort(g.list, key))
  }

  lemma {:induction false} NoDupMultiplicity(s: seq<ObjId>, v: ObjId)
    requires NoDup(s)
    ensures multiset(s)[v] <= 1
  {
    if s != [] {
      assert s == [s[0]] + s[1..];
      assert NoDup(s[1..]);
      NoDupMultiplicity(s[1..], v);
      if s[0] == v {
        assert v !in s[1..];
      }
    }
  }

  lemma PermutationKeepsNoDup(a: seq<ObjId>, b: seq<ObjId>)
    requires multiset(a) == multiset(b) && NoDup(b)
    ensures NoDup(a)
    ensures Elems(a) == Elems(b)
  {
    forall i, j | 0 <= i < j < |a|
      ensures a[i] != a[j]
    {
      if a[i] == a[j] {
        var v := a[i];
        assert a == a[..j] + a[j..];
        assert v in a[..j];
        assert v in a[j..];
        assert multiset(a)[v] == multiset(a[..j])[v] + multiset(a[j..])[v];
        NoDupMultiplicity(b, v);
      }
    }
    assert forall x :: x in a <==> x in multiset(a);
    assert forall x :: x in b <==> x in multiset(b);
  }

  lemma SortKeepsValid(g: Group, key: ObjId -> int)
    requires Valid(g)
    ensures Valid(Sort(g, key))
  {
    PermutationKeepsNoDup(Sort(g, key).list, g.list);
  }
}
