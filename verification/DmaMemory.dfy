/** DMA descriptors and their accounting: the three descriptors of a queue pair
    are allocated with staged rollback and released on destroy. */
module DmaMemory {
  import opened Wrappers

  /** Descriptors are numbered as they are created; `released` records every release. */
  datatype Heap = Heap(next: nat, live: set<nat>, released: seq<nat>)

  /** Every descriptor ever created is live or was released, and none twice. */
  ghost predicate Accounted(h: Heap) {
    && (forall d :: d in h.live ==> d < h.next && d !in h.released)
    && (forall i :: 0 <= i < |h.released| ==> h.released[i] < h.next)
    && (forall i, j :: 0 <= i < j < |h.released| ==> h.released[i] != h.released[j])
    && (forall d :: 0 <= d < h.next ==> d in h.live || d in h.released)
  }

  function Alloc(h: Heap): (r: (Heap, nat)) {
    (h.(next := h.next + 1, live := h.live + {h.next}), h.next)
  }

  /** A release; nothing stops one of a descriptor that is gone already. */
  function Release(h: Heap, d: nat): Heap {
    h.(live := h.live - {d}, released := h.released + [d])
  }

  lemma AllocAccounted(h: Heap)
    requires Accounted(h)
    ensures Accounted(Alloc(h).0) && h.next !in h.live
  {
  }

  lemma ReleaseAccounted(h: Heap, d: nat)
    requires Accounted(h) && d in h.live
    ensures Accounted(Release(h, d))
  {
    var r := Release(h, d);
    forall e | 0 <= e < r.next
      ensures e in r.live || e in r.released
    {
      if e == d { assert r.released[|h.released|] == d; }
      if e in h.released {
        var i :| 0 <= i < |h.released| && h.released[i] == e;
        assert r.released[i] == e;
      }
    }
  }

  class DmaHeap {
    var heap: Heap

    /** An allocation the platform grants or refuses. */
    method Allocate(granted: bool) returns (md: Option<nat>)
      modifies this
      ensures !granted ==> md == None && heap == old(heap)
      ensures granted ==> heap == Alloc(old(heap)).0 && md == Some(Alloc(old(heap)).1)
    {
      if !granted {
        return None;
      }
      var (h, d) := Alloc(heap);
      heap := h;
      md := Some(d);
    }

    /** The release of a descriptor. */
    method Free(md: nat)
      modifies this
      ensures heap == Release(old(heap), md)
    {
      heap := Release(heap, md);
    }
  }

  // ---------------------------------------------------------------- queue-pair resources

  /** The descriptor fields of an object: send ring, receive ring, doorbell record. They
      keep their values when the descriptors are released. */
  datatype Fields = Fields(sq: Option<nat>, rq: Option<nat>, db: Option<nat>)

  const BLANK := Fields(None, None, None)

  function Of(md: Option<nat>): set<nat> { if md.Some? then {md.value} else {} }

  function Named(f: Fields): set<nat> { Of(f.sq) + Of(f.rq) + Of(f.db) }

  predicate Complete(f: Fields) {
    f.sq.Some? && f.rq.Some? && f.db.Some? && f.sq != f.rq && f.rq != f.db && f.sq != f.db
  }

  datatype Grants = Grants(sq: bool, rq: bool, db: bool)

  /** alloc_qp_resources over zeroed fields: a refusal releases what was already granted. */
  function AllocFields(h: Heap, g: Grants): (r: (Heap, Fields, bool)) {
    if !g.sq then (h, BLANK, false)
    else
      var (h1, sq) := Alloc(h);
      if !g.rq then (Release(h1, sq), Fields(Some(sq), None, None), false)
      else
        var (h2, rq) := Alloc(h1);
        if !g.db then (Release(Release(h2, sq), rq), Fields(Some(sq), Some(rq), None), false)
        else
          var (h3, db) := Alloc(h2);
          (h3, Fields(Some(sq), Some(rq), Some(db)), true)
  }

  /** What the fields name and what has been released after each kind of create: the
      fields keep descriptors that are gone. */
  lemma CreateInFull(h: Heap, g: Grants, acked: bool)
    ensures var (h', f, ok) := CreateFields(h, g, acked);
            var a, b, c := h.next, h.next + 1, h.next + 2;
            if !g.sq then
              f == Fields(None, None, None) && !ok && h' == h
            else if !g.rq then
              f == Fields(Some(a), None, None) && !ok && h'.released == h.released + [a] && h'.next == b
            else if !g.db then
              f == Fields(Some(a), Some(b), None) && !ok && h'.released == h.released + [a, b] && h'.next == c
            else
              && f == Fields(Some(a), Some(b), Some(c)) && ok == acked && h'.next == c + 1
              && h'.released == h.released + (if acked then [] else [a, b, c])
              && (acked ==> h'.live == h.live + {a, b, c})
  {
  }

  /** Destroy releases each descriptor named, in field order. */
  lemma ReleaseInFull(h: Heap, f: Fields)
    ensures ReleaseFields(h, f).released
            == h.released + (if f.sq.Some? then [f.sq.value] else []) + (if f.rq.Some? then [f.rq.value] else [])
               + (if f.db.Some? then [f.db.value] else [])
    ensures ReleaseFields(h, f).live == h.live - Named(f)
  {
    ReleaseFrame(h, f);
  }

  lemma AllocGranted(h: Heap, g: Grants)
    ensures AllocFields(h, g).2 <==> g.sq && g.rq && g.db
  {
  }

  function ReleaseIfSet(h: Heap, md: Option<nat>): Heap {
    if md.Some? then Release(h, md.value) else h
  }

  function ReleaseFields(h: Heap, f: Fields): Heap {
    ReleaseIfSet(ReleaseIfSet(ReleaseIfSet(h, f.sq), f.rq), f.db)
  }

  /** mlx5_ib_create_qp_full: a failed command releases all three descriptors. */
  function CreateFields(h: Heap, g: Grants, acked: bool): (r: (Heap, Fields, bool)) {
    var (h', f, ok) := AllocFields(h, g);
    if !ok || acked then (h', f, ok) else (ReleaseFields(h', f), f, false)
  }

  /** What a create does to any heap: only descriptors of its own come and go. */
  lemma CreateFrame(h: Heap, g: Grants, acked: bool)
    ensures var (h', f, ok) := CreateFields(h, g, acked);
            && h.next <= h'.next && h.released <= h'.released
            && (forall d :: d in Named(f) ==> h.next <= d < h'.next)
            && (forall d :: d < h.next ==> (d in h.live <==> d in h'.live))
  {
  }

  lemma AllocResult(h: Heap, g: Grants)
    requires Accounted(h)
    ensures var (h', f, ok) := AllocFields(h, g);
            && Accounted(h') && (ok <==> g.sq && g.rq && g.db)
            && (ok ==> Complete(f) && h'.live == h.live + Named(f) && Named(f) !! h.live)
            && (!ok ==> h'.live == h.live)
  {
    AllocAccounted(h);
    var (h1, sq) := Alloc(h);
    ReleaseAccounted(h1, sq);
    AllocAccounted(h1);
    var (h2, rq) := Alloc(h1);
    ReleaseAccounted(h2, sq);
    ReleaseAccounted(Release(h2, sq), rq);
    AllocAccounted(h2);
  }

  /** A create succeeds with three new descriptors or leaves the live ones as they were. */
  lemma CreateResult(h: Heap, g: Grants, acked: bool)
    requires Accounted(h)
    ensures var (h', f, ok) := CreateFields(h, g, acked);
            && Accounted(h') && (ok <==> g.sq && g.rq && g.db && acked)
            && (ok ==> Complete(f) && h'.live == h.live + Named(f))
            && (!ok ==> h'.live == h.live)
            && Named(f) !! h.live
  {
    AllocResult(h, g);
    CreateFrame(h, g, acked);
    var (h1, f, ok) := AllocFields(h, g);
    if ok && !acked {
      ReleaseResult(h1, f);
    }
  }

  /** Releasing three distinct live descriptors. */
  lemma ReleaseResult(h: Heap, f: Fields)
    requires Accounted(h) && Complete(f) && Named(f) <= h.live
    ensures Accounted(ReleaseFields(h, f))
  {
    var h1 := Release(h, f.sq.value);
    ReleaseAccounted(h, f.sq.value);
    ReleaseAccounted(h1, f.rq.value);
    ReleaseAccounted(Release(h1, f.rq.value), f.db.value);
  }

  /** What releasing the fields does to any heap. */
  lemma ReleaseFrame(h: Heap, f: Fields)
    ensures var h' := ReleaseFields(h, f);
            && h'.next == h.next && h'.live == h.live - Named(f) && h.released <= h'.released
            && (forall d :: d in Named(f) ==> d in h'.released[|h.released|..])
  {
    var h1 := ReleaseIfSet(h, f.sq);
    var h2 := ReleaseIfSet(h1, f.rq);
    var h' := ReleaseIfSet(h2, f.db);
    assert h2.released[|h.released|..] == h1.released[|h.released|..] + h2.released[|h1.released|..];
    assert h'.released[|h.released|..] == h2.released[|h.released|..] + h'.released[|h2.released|..];
    assert f.sq.Some? ==> h1.released[|h.released|..] == [f.sq.value];
    assert f.rq.Some? ==> h2.released[|h1.released|..] == [f.rq.value];
    assert f.db.Some? ==> h'.released[|h2.released|..] == [f.db.value];
  }

  // ---------------------------------------------------------------- runs of create and destroy

  /** The objects ever passed to create, and those that hold a queue pair. */
  datatype World = World(heap: Heap, objs: map<nat, Fields>, up: set<nat>)

  /** `acked` tells whether the firmware command succeeded; `id` is the caller's object. */
  datatype Op = Create(id: nat, grants: Grants, acked: bool) | Destroy(id: nat, acked: bool)

  /** Create zeroes the object first, whatever it holds; destroy releases what the fields
      name, whether or not it was released before. An object never passed to create has
      no descriptor. */
  function Apply(w: World, op: Op): World {
    match op
    case Create(id, g, acked) =>
      var (h, f, ok) := CreateFields(w.heap, g, acked);
      World(h, w.objs[id := f], if ok then w.up + {id} else w.up - {id})
    case Destroy(id, _) =>
      if id !in w.objs then w else World(ReleaseFields(w.heap, w.objs[id]), w.objs, w.up - {id})
  }

  function Run(w: World, ops: seq<Op>): World {
    if ops == [] then w else Apply(Run(w, ops[..|ops| - 1]), ops[|ops| - 1])
  }

  /** All descriptors held by queue pairs. */
  ghost function Held(objs: map<nat, Fields>, up: set<nat>): set<nat> {
    set i, d | i in up && i in objs && d in Named(objs[i]) :: d
  }

  /** Three live descriptors per queue pair, none shared, every other one released exactly
      once; what other objects still name is gone. */
  ghost predicate Conserved(w: World) {
    && Accounted(w.heap)
    && w.heap.live == Held(w.objs, w.up)
    && |w.heap.live| == 3 * |w.up|
    && (forall i :: i in w.up ==> i in w.objs && Complete(w.objs[i]))
    && Apart(w.objs, w.up)
    && Stale(w)
  }

  ghost predicate Apart(objs: map<nat, Fields>, up: set<nat>) {
    forall i, j :: i in up && j in up && i in objs && j in objs && i != j ==> Named(objs[i]) !! Named(objs[j])
  }

  ghost predicate Stale(w: World) {
    forall i :: i in w.objs ==> Below(Named(w.objs[i]), w.heap.next) && (i !in w.up ==> Named(w.objs[i]) !! w.heap.live)
  }

  predicate Below(ds: set<nat>, n: nat) { forall d :: d in ds ==> d < n }

  /** What the caller must keep to: create on an object without a queue pair, destroy of
      one with a queue pair, or of one that names no descriptor. */
  predicate Proper(w: World, op: Op) {
    match op
    case Create(id, _, _) => id !in w.up
    case Destroy(id, _) => id in w.up || id !in w.objs || w.objs[id] == BLANK
  }

  ghost predicate AllProper(w: World, ops: seq<Op>) {
    ops == [] || (AllProper(w, ops[..|ops| - 1]) && Proper(Run(w, ops[..|ops| - 1]), ops[|ops| - 1]))
  }

  // ---------------------------------------------------------------- proper steps conserve

  lemma HeldAdd(objs: map<nat, Fields>, up: set<nat>, id: nat, f: Fields)
    requires id !in up
    ensures Held(objs[id := f], up) == Held(objs, up)
    ensures Held(objs[id := f], up + {id}) == Held(objs, up) + Named(f)
  {
    hide Named;
    var m := objs[id := f];
    forall d | d in Held(objs, up)
      ensures d in Held(m, up) && d in Held(m, up + {id})
    {
      var i :| i in up && i in objs && d in Named(objs[i]);
      assert i in m && m[i] == objs[i];
    }
    forall d | d in Named(f)
      ensures d in Held(m, up + {id})
    {
      assert id in m && m[id] == f;
    }
    forall d | d in Held(m, up + {id})
      ensures d in Held(objs, up) || d in Named(f)
    {
      var i :| i in up + {id} && i in m && d in Named(m[i]);
    }
    forall d | d in Held(m, up)
      ensures d in Held(objs, up)
    {
      var i :| i in up && i in m && d in Named(m[i]);
    }
  }

  lemma ThreeMore(live: set<nat>, f: Fields)
    requires Complete(f) && Named(f) !! live
    ensures |live + Named(f)| == |live| + 3
  {
    assert live + Named(f) == live + {f.sq.value} + {f.rq.value} + {f.db.value};
  }

  lemma HeldNames(objs: map<nat, Fields>, up: set<nat>, i: nat)
    requires i in up && i in objs
    ensures Named(objs[i]) <= Held(objs, up)
  {
  }

  lemma CreateConserves(w: World, id: nat, g: Grants, acked: bool)
    requires Conserved(w) && id !in w.up
    ensures Conserved(Apply(w, Create(id, g, acked)))
    ensures var r := Apply(w, Create(id, g, acked)); id !in r.up ==> r.heap.live == w.heap.live
  {
    hide CreateFields, Held, Apart, Named, Complete, Accounted, Stale;
    CreateResult(w.heap, g, acked);
    var (h, f, ok) := CreateFields(w.heap, g, acked);
    StaleAdd(w, id, g, acked);
    ApartAdd(w, id, f);
    assert w.up - {id} == w.up;
    if ok {
      ObjectAdded(w, h, id, f);
    } else {
      ObjectBlank(w, h, id, f);
    }
  }

  lemma ObjectAdded(w: World, h: Heap, id: nat, f: Fields)
    requires Conserved(w) && id !in w.up && Accounted(h) && Complete(f)
    requires h.live == w.heap.live + Named(f) && Named(f) !! w.heap.live
    requires Apart(w.objs[id := f], w.up + {id}) && Stale(World(h, w.objs[id := f], w.up + {id}))
    ensures Conserved(World(h, w.objs[id := f], w.up + {id}))
  {
    hide Held, Named, Complete, Accounted, Apart, Stale;
    HeldAdd(w.objs, w.up, id, f);
    ThreeMore(w.heap.live, f);
  }

  lemma ObjectBlank(w: World, h: Heap, id: nat, f: Fields)
    requires Conserved(w) && id !in w.up && Accounted(h) && h.live == w.heap.live
    requires Apart(w.objs[id := f], w.up) && Stale(World(h, w.objs[id := f], w.up))
    ensures Conserved(World(h, w.objs[id := f], w.up))
  {
    hide Held, Named, Complete, Accounted, Apart, Stale;
    HeldAdd(w.objs, w.up, id, f);
  }

  lemma ApartAdd(w: World, id: nat, f: Fields)
    requires Conserved(w) && id !in w.up && Named(f) !! w.heap.live
    ensures Apart(w.objs[id := f], w.up) && Apart(w.objs[id := f], w.up + {id})
  {
    hide Named, Accounted, Complete, Stale;
    forall i | i in w.up
      ensures Named(w.objs[i]) <= w.heap.live
    {
      HeldNames(w.objs, w.up, i);
    }
  }

  lemma StaleAdd(w: World, id: nat, g: Grants, acked: bool)
    requires Conserved(w) && id !in w.up
    ensures Stale(Apply(w, Create(id, g, acked)))
  {
    hide CreateFields, Held, Named, Complete, Apart, Accounted;
    CreateResult(w.heap, g, acked);
    CreateFrame(w.heap, g, acked);
    forall i | i in w.objs && i != id
      ensures i !in w.up ==> Named(w.objs[i]) !! Apply(w, Create(id, g, acked)).heap.live
    {
      assert Below(Named(w.objs[i]), w.heap.next);
    }
  }

  lemma DestroyConserves(w: World, id: nat, acked: bool)
    requires Conserved(w) && id in w.up
    ensures Conserved(Apply(w, Destroy(id, acked)))
    ensures Apply(w, Destroy(id, acked)).heap.live == w.heap.live - Named(w.objs[id])
  {
    hide ReleaseFields, Held, Named, Complete, Accounted, Apart, Stale;
    var f, up := w.objs[id], w.up - {id};
    HeldNames(w.objs, w.up, id);
    ReleaseResult(w.heap, f);
    ReleaseFrame(w.heap, f);
    HeldRemove(w, id);
    assert up + {id} == w.up;
    ThreeMore(w.heap.live - Named(f), f);
    assert w.heap.live - Named(f) + Named(f) == w.heap.live;
    ApartRemove(w, id);
    StaleRemove(w, id, acked);
  }

  lemma HeldRemove(w: World, id: nat)
    requires Conserved(w) && id in w.up
    ensures Held(w.objs, w.up - {id}) == Held(w.objs, w.up) - Named(w.objs[id])
  {
    hide Named, Complete, Accounted, Stale;
    var up := w.up - {id};
    forall d | d in Held(w.objs, up)
      ensures d in Held(w.objs, w.up) && d !in Named(w.objs[id])
    {
      var i :| i in up && i in w.objs && d in Named(w.objs[i]);
      assert Named(w.objs[i]) !! Named(w.objs[id]);
    }
    forall d | d in Held(w.objs, w.up) && d !in Named(w.objs[id])
      ensures d in Held(w.objs, up)
    {
      var i :| i in w.up && i in w.objs && d in Named(w.objs[i]);
    }
  }

  lemma ApartRemove(w: World, id: nat)
    requires Apart(w.objs, w.up)
    ensures Apart(w.objs, w.up - {id})
  {
    hide Named;
  }

  lemma StaleRemove(w: World, id: nat, acked: bool)
    requires Stale(w) && id in w.objs
    ensures Stale(Apply(w, Destroy(id, acked)))
  {
    hide ReleaseFields, Named;
    ReleaseFrame(w.heap, w.objs[id]);
  }

  lemma ProperConserves(w: World, op: Op)
    requires Conserved(w) && Proper(w, op)
    ensures Conserved(Apply(w, op))
  {
    hide Conserved;
    match op
    case Create(id, g, acked) => CreateConserves(w, id, g, acked);
    case Destroy(id, acked) =>
      if id in w.up {
        DestroyConserves(w, id, acked);
      } else {
        assert w.up - {id} == w.up;
        assert Apply(w, op) == w;
      }
  }

  // ---------------------------------------------------------------- improper steps do harm

  /** A descriptor was released twice, or is live although no object names it. */
  ghost predicate Broken(h: Heap, objs: map<nat, Fields>) {
    || (exists i, j :: 0 <= i < j < |h.released| && h.released[i] == h.released[j])
    || (exists d :: Leaked(h, objs, d))
  }

  ghost predicate Leaked(h: Heap, objs: map<nat, Fields>, d: nat) {
    d < h.next && d in h.live && forall i :: i in objs ==> d !in Named(objs[i])
  }

  lemma BrokenNotConserved(w: World)
    requires Broken(w.heap, w.objs)
    ensures !Conserved(w)
  {
    hide Named, Complete;
  }

  /** The harm is never undone. */
  lemma BrokenStays(w: World, op: Op)
    requires Broken(w.heap, w.objs)
    ensures var r := Apply(w, op); Broken(r.heap, r.objs)
  {
    hide CreateFields, ReleaseFields, Named;
    var r := Apply(w, op);
    match op {
      case Create(id, g, acked) => CreateFrame(w.heap, g, acked);
      case Destroy(id, _) => if id in w.objs { ReleaseFrame(w.heap, w.objs[id]); }
    }
    if d :| Leaked(w.heap, w.objs, d) {
      assert Leaked(r.heap, r.objs, d);
    } else {
      var i, j :| 0 <= i < j < |w.heap.released| && w.heap.released[i] == w.heap.released[j];
      assert r.heap.released[i] == r.heap.released[j];
    }
  }

  /** Creating over a live queue pair leaks its descriptors. */
  lemma CreateOverLeaks(w: World, id: nat, g: Grants, acked: bool)
    requires Conserved(w) && id in w.up
    ensures var r := Apply(w, Create(id, g, acked)); Broken(r.heap, r.objs)
  {
    hide CreateFields, Accounted;
    CreateFrame(w.heap, g, acked);
    var r, d := Apply(w, Create(id, g, acked)), w.objs[id].sq.value;
    assert d in Named(w.objs[id]);
    HeldNames(w.objs, w.up, id);
    forall i | i in w.objs && i != id
      ensures d !in Named(w.objs[i])
    {
      if i in w.up { assert Named(w.objs[i]) !! Named(w.objs[id]); }
    }
    assert Leaked(r.heap, r.objs, d);
  }

  /** Destroying an object that names released descriptors releases them again. */
  lemma DestroyAgainDoubles(w: World, id: nat, acked: bool)
    requires Conserved(w) && id in w.objs && id !in w.up && w.objs[id] != BLANK
    ensures var r := Apply(w, Destroy(id, acked)); Broken(r.heap, r.objs)
  {
    hide ReleaseFields, Held;
    var f, r := w.objs[id], Apply(w, Destroy(id, acked));
    ReleaseFrame(w.heap, f);
    var d := if f.sq.Some? then f.sq.value else if f.rq.Some? then f.rq.value else f.db.value;
    assert d in Named(f) && d in w.heap.released;
    var n := |w.heap.released|;
    var i :| 0 <= i < n && w.heap.released[i] == d;
    var k :| 0 <= k < |r.heap.released| - n && r.heap.released[n..][k] == d;
    assert r.heap.released[i] == r.heap.released[n + k];
  }

  lemma ImproperBreaks(w: World, op: Op)
    requires Conserved(w) && !Proper(w, op)
    ensures var r := Apply(w, op); Broken(r.heap, r.objs)
  {
    hide Conserved, Broken;
    match op
    case Create(id, g, acked) => CreateOverLeaks(w, id, g, acked);
    case Destroy(id, acked) => DestroyAgainDoubles(w, id, acked);
  }

  /** Over any run of create and destroy, with an allocation or a command failing
      anywhere, three descriptors are live per queue pair, none is shared and every other
      one has been released exactly once, if and only if no create names an object with a
      queue pair and every destroy names one, or an object without descriptors. */
  lemma {:induction false} ResourcesConserved(w: World, ops: seq<Op>)
    requires Conserved(w)
    ensures Conserved(Run(w, ops)) <==> AllProper(w, ops)
    ensures !AllProper(w, ops) ==> Broken(Run(w, ops).heap, Run(w, ops).objs)
    decreases |ops|
  {
    hide Conserved, Broken, Apply, Proper;
    if ops != [] {
      var front, op := ops[..|ops| - 1], ops[|ops| - 1];
      var t := Run(w, front);
      ResourcesConserved(w, front);
      if !AllProper(w, front) {
        BrokenStays(t, op);
        BrokenNotConserved(Apply(t, op));
      } else if Proper(t, op) {
        ProperConserves(t, op);
      } else {
        ImproperBreaks(t, op);
        BrokenNotConserved(Apply(t, op));
      }
    }
  }

  const START := World(Heap(0, {}, []), map[], {})

  /** The driver starts without descriptors. */
  lemma StartConserved()
    ensures Conserved(START)
  {
    assert Held(map[], {}) == {};
  }

  /** Create twice leaks; destroy twice releases twice. */
  lemma ImproperRuns()
    ensures var all := Grants(true, true, true);
            var leak := Run(START, [Create(0, all, true), Create(0, all, true)]);
            var twice := Run(START, [Create(0, all, true), Destroy(0, true), Destroy(0, true)]);
            && leak.heap.live == {0, 1, 2, 3, 4, 5} && leak.up == {0}
            && twice.heap.released == [0, 1, 2, 0, 1, 2]
  {
    var all := Grants(true, true, true);
    TwoOps(START, Create(0, all, true), Create(0, all, true));
    TwoOps(START, Create(0, all, true), Destroy(0, true));
    assert [Create(0, all, true), Destroy(0, true), Destroy(0, true)][..2] == [Create(0, all, true), Destroy(0, true)];
  }

  /** So does destroy after a create that failed at the command, at the doorbell record or
      at the receive ring. */
  lemma DestroyAfterFailure()
    ensures var refused := Run(START, [Create(0, Grants(true, true, true), false), Destroy(0, true)]);
            var noDoorbell := Run(START, [Create(0, Grants(true, true, false), true), Destroy(0, true)]);
            var noRecv := Run(START, [Create(0, Grants(true, false, true), true), Destroy(0, true)]);
            && refused.heap.released == [0, 1, 2, 0, 1, 2]
            && noDoorbell.heap.released == [0, 1, 0, 1]
            && noRecv.heap.released == [0, 0]
  {
    TwoOps(START, Create(0, Grants(true, true, true), false), Destroy(0, true));
    TwoOps(START, Create(0, Grants(true, true, false), true), Destroy(0, true));
    TwoOps(START, Create(0, Grants(true, false, true), true), Destroy(0, true));
  }

  lemma TwoOps(w: World, a: Op, b: Op)
    ensures Run(w, [a, b]) == Apply(Apply(w, a), b)
  {
    hide Apply;
    assert [a, b][..1] == [a] && [a][..0] == [];
    assert Run(w, [a]) == Apply(Run(w, []), a);
  }
}
