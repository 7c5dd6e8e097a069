/**
 The unlocked breadth-first search for an eviction path, shared by both cuckoo stores (width 6,
 depth 7 and width 8, depth 5). Every read of a slot goes to `read`, which may answer differently
 each time: the table can change under the search. `Stable` says that it does not.
 */
module PathSearch {

  const EMPTY: int := 0

  datatype Bucket = Bucket(table: int, index: nat)

  datatype Point = Point(table: int, index: int, pathcode: int, depth: int)

  const NO_POINT := Point(-1, -1, -1, -1)

  /** One search: the table's shape and hash function, the two buckets of the value, the slots as they stand. */
  datatype Shape = Shape(width: nat, maxDepth: nat, buckets: nat, hash: (int, int) -> nat, idx1: nat, idx2: nat)

  type Reader = (nat, Bucket, nat) -> int
  type Slots = (Bucket, nat) -> int

  ghost predicate ShapeOk(sh: Shape) {
    && sh.width >= 2 && sh.maxDepth >= 1 && sh.idx1 < sh.buckets && sh.idx2 < sh.buckets
    && forall v, f :: sh.hash(v, f) < sh.buckets
  }

  ghost predicate Stable(read: Reader, look: Slots) {
    forall n, b, s :: read(n, b, s) == look(b, s)
  }

  // ---- path codes: base-width numerals, the root choice in front ----

  function SlotsOf(code: nat, n: nat, width: nat): (slots: seq<nat>)
    requires width >= 2
    ensures |slots| == n && forall i :: 0 <= i < n ==> slots[i] < width
  {
    if n == 0 then [] else SlotsOf(code / width, n - 1, width) + [code % width]
  }

  function RootOf(code: nat, n: nat, width: nat): nat
    requires width >= 2
  {
    if n == 0 then code else RootOf(code / width, n - 1, width)
  }

  function Encode(root: nat, slots: seq<nat>, width: nat): nat {
    if slots == [] then root
    else Encode(root, slots[..|slots| - 1], width) * width + slots[|slots| - 1]
  }

  function Pow(base: nat, n: nat): nat {
    if n == 0 then 1 else base * Pow(base, n - 1)
  }

  lemma SmallMultiple(k: int, width: nat)
    requires 0 - width < k * width < width
    ensures k == 0
  {
  }

  lemma AppendDigit(code: nat, slot: nat, width: nat)
    requires slot < width
    ensures (code * width + slot) / width == code && (code * width + slot) % width == slot
  {
    var x := code * width + slot;
    var q, r := x / width, x % width;
    assert x == q * width + r;
    assert (q - code) * width == slot - r;
    SmallMultiple(q - code, width);
  }

  /** Decoding a code recovers exactly the root choice and the slots it was built from. */
  lemma {:induction false} DecodeEncode(root: nat, slots: seq<nat>, width: nat)
    requires width >= 2 && forall i :: 0 <= i < |slots| ==> slots[i] < width
    ensures SlotsOf(Encode(root, slots, width), |slots|, width) == slots
    ensures RootOf(Encode(root, slots, width), |slots|, width) == root
  {
    if slots != [] {
      var init, last := slots[..|slots| - 1], slots[|slots| - 1];
      AppendDigit(Encode(root, init, width), last, width);
      DecodeEncode(root, init, width);
    }
  }

  /** A code with a root choice of 0 or 1 and n slots is below 2 * width^n. */
  lemma {:induction false} CodeBound(code: nat, n: nat, width: nat)
    requires width >= 2 && RootOf(code, n, width) < 2
    ensures code < 2 * Pow(width, n)
  {
    if n > 0 {
      CodeBound(code / width, n - 1, width);
      OneDigitMore(code, n, width);
    }
  }

  lemma OneDigitMore(code: nat, n: nat, width: nat)
    requires width >= 2 && n > 0 && code / width < 2 * Pow(width, n - 1)
    ensures code < 2 * Pow(width, n)
  {
    var q, p := code / width, Pow(width, n - 1);
    assert code == q * width + code % width;
    ScaleBound(q, p, width);
  }

  lemma ScaleBound(q: nat, p: nat, width: nat)
    requires q + 1 <= 2 * p
    ensures q * width + width <= 2 * (width * p)
  {
    assert (q + 1) * width <= (2 * p) * width;
  }

  lemma {:induction false} PowGrows(base: nat, m: nat, n: nat)
    requires base >= 1 && m <= n
    ensures 1 <= Pow(base, m) <= Pow(base, n)
  {
    if n > m {
      PowGrows(base, m, n - 1);
      assert base * Pow(base, n - 1) >= Pow(base, n - 1);
    } else if n > 0 {
      PowGrows(base, m - 1, n - 1);
      assert base * Pow(base, n - 1) >= Pow(base, n - 1);
    }
  }

  /** The codes of both stores fit a signed 32-bit int. */
  lemma CodesFitInt32()
    ensures 2 * Pow(6, 7) < 0x8000_0000 && 2 * Pow(8, 5) < 0x8000_0000
  {
    assert Pow(6, 2) == 36 && Pow(6, 4) == 1296 && Pow(6, 6) == 46656 && Pow(6, 7) == 279936;
    assert Pow(8, 2) == 64 && Pow(8, 4) == 4096 && Pow(8, 5) == 32768;
  }

  // ---- walking a path through a table that stands still ----

  function Root(sh: Shape, root: nat): Bucket {
    if root == 0 then Bucket(1, sh.idx1) else Bucket(2, sh.idx2)
  }

  /** The other bucket of the value in a slot. */
  function Next(sh: Shape, look: Slots, b: Bucket, slot: nat): Bucket {
    Bucket(3 - b.table, sh.hash(look(b, slot), 3 - b.table))
  }

  function Walk(sh: Shape, look: Slots, root: nat, slots: seq<nat>): Bucket {
    if slots == [] then Root(sh, root)
    else Next(sh, look, Walk(sh, look, root, slots[..|slots| - 1]), slots[|slots| - 1])
  }

  /** Every slot on the way is occupied, so each step has a value to displace. */
  ghost predicate Trail(sh: Shape, look: Slots, root: nat, slots: seq<nat>) {
    root < 2 &&
    (slots == [] ||
     var init, last := slots[..|slots| - 1], slots[|slots| - 1];
     Trail(sh, look, root, init) && last < sh.width && look(Walk(sh, look, root, init), last) != EMPTY)
  }

  /** The slots lead from the chosen root to bucket b. */
  ghost predicate Leads(sh: Shape, look: Slots, root: nat, slots: seq<nat>, b: Bucket) {
    Trail(sh, look, root, slots) && Walk(sh, look, root, slots) == b
  }

  ghost predicate Full(sh: Shape, look: Slots, b: Bucket) {
    forall s :: 0 <= s < sh.width ==> look(b, s) != EMPTY
  }

  /** Every bucket that takes fewer than d hops to reach is full. */
  ghost predicate NoneCloser(sh: Shape, look: Slots, d: nat) {
    forall root, slots :: |slots| < d && Trail(sh, look, root, slots) ==> Full(sh, look, Walk(sh, look, root, slots))
  }

  /** The code leads to an empty slot of the point's bucket along occupied slots, by a shortest way. */
  ghost predicate Shortest(sh: Shape, look: Slots, p: Point)
    requires sh.width >= 2 && p.pathcode >= 0 && p.depth >= 0 && p.index >= 0
  {
    var slots, root := SlotsOf(p.pathcode, p.depth + 1, sh.width), RootOf(p.pathcode, p.depth + 1, sh.width);
    && Leads(sh, look, root, slots[..p.depth], Bucket(p.table, p.index))
    && look(Bucket(p.table, p.index), slots[p.depth]) == EMPTY
    && NoneCloser(sh, look, p.depth)
  }

  // ---- the search ----

  /** The most points a queued point can still lead to, itself included. */
  function Weight(sh: Shape, depth: nat): nat
    requires depth < sh.maxDepth
    decreases sh.maxDepth - depth
  {
    if depth == sh.maxDepth - 1 then 1 else 1 + sh.width * Weight(sh, depth + 1)
  }

  function QueueWeight(sh: Shape, q: seq<Point>): nat
    requires forall p :: p in q ==> 0 <= p.depth < sh.maxDepth
  {
    if q == [] then 0 else QueueWeight(sh, q[..|q| - 1]) + Weight(sh, q[|q| - 1].depth)
  }

  lemma {:induction false} PopWeight(sh: Shape, q: seq<Point>)
    requires q != [] && forall p :: p in q ==> 0 <= p.depth < sh.maxDepth
    ensures QueueWeight(sh, q) == Weight(sh, q[0].depth) + QueueWeight(sh, q[1..])
  {
    if |q| == 1 {
      assert q[..0] == [] && q[1..] == [];
    } else {
      PopWeight(sh, q[..|q| - 1]);
      assert q[..|q| - 1][1..] == q[1..][..|q| - 2];
    }
  }

  /** What is true of every point in the queue, however the table changes. */
  ghost predicate PointOk(sh: Shape, p: Point)
    requires sh.width >= 2
  {
    && 0 <= p.depth < sh.maxDepth && (p.table == 1 || p.table == 2)
    && 0 <= p.index < sh.buckets && p.pathcode >= 0
    && RootOf(p.pathcode, p.depth, sh.width) < 2
  }

  /** In a stable table the point's code leads to its bucket. */
  ghost predicate LeadsThere(sh: Shape, look: Slots, p: Point)
    requires sh.width >= 2 && PointOk(sh, p)
  {
    Leads(sh, look, RootOf(p.pathcode, p.depth, sh.width), SlotsOf(p.pathcode, p.depth, sh.width),
          Bucket(p.table, p.index))
  }

  ghost predicate QueueOk(sh: Shape, q: seq<Point>)
    requires sh.width >= 2
  {
    && (forall i :: 0 <= i < |q| ==> PointOk(sh, q[i]))
    && (forall i, j :: 0 <= i < j < |q| ==> q[i].depth <= q[j].depth <= q[i].depth + 1)
  }

  /** A visited bucket with the number of hops it was reached in. */
  datatype Visit = Visit(b: Bucket, depth: int)

  ghost function Visits(q: seq<Point>): set<Visit> {
    set p | p in q && p.index >= 0 :: Visit(Bucket(p.table, p.index), p.depth)
  }

  /** Every visited bucket is full, and all its neighbours are visited or waiting. */
  ghost predicate Closed(sh: Shape, look: Slots, done: set<Visit>, waiting: set<Visit>) {
    && Visit(Root(sh, 0), 0) in done + waiting && Visit(Root(sh, 1), 0) in done + waiting
    && (forall v :: v in done ==> Full(sh, look, v.b))
    && (forall v, s :: v in done && 0 <= s < sh.width && v.depth < sh.maxDepth - 1 ==>
          Visit(Next(sh, look, v.b, s), v.depth + 1) in done + waiting)
  }

  /** If nothing nearer than d is still waiting, everything nearer than d has been visited and is full. */
  lemma {:induction false} NearerIsDone(
      sh: Shape, look: Slots, done: set<Visit>, waiting: set<Visit>, d: nat, root: nat, slots: seq<nat>)
    requires ShapeOk(sh) && Closed(sh, look, done, waiting) && d <= sh.maxDepth
    requires forall v :: v in waiting ==> v.depth >= d
    requires |slots| < d && Trail(sh, look, root, slots)
    ensures Visit(Walk(sh, look, root, slots), |slots|) in done
    decreases |slots|
  {
    if slots != [] {
      NearerIsDone(sh, look, done, waiting, d, root, slots[..|slots| - 1]);
    }
  }

  lemma NoneCloserFromClosed(sh: Shape, look: Slots, done: set<Visit>, waiting: set<Visit>, d: nat)
    requires ShapeOk(sh) && Closed(sh, look, done, waiting) && d <= sh.maxDepth
    requires forall v :: v in waiting ==> v.depth >= d
    ensures NoneCloser(sh, look, d)
  {
    forall root, slots | |slots| < d && Trail(sh, look, root, slots)
      ensures Full(sh, look, Walk(sh, look, root, slots))
    {
      NearerIsDone(sh, look, done, waiting, d, root, slots);
    }
  }

  /** Appending a slot to a point's code. */
  lemma Extend(sh: Shape, p: Point, slot: nat)
    requires sh.width >= 2 && PointOk(sh, p) && slot < sh.width
    ensures var code := p.pathcode * sh.width + slot;
            && code >= 0
            && RootOf(code, p.depth + 1, sh.width) == RootOf(p.pathcode, p.depth, sh.width)
            && SlotsOf(code, p.depth + 1, sh.width) == SlotsOf(p.pathcode, p.depth, sh.width) + [slot]
  {
    AppendDigit(p.pathcode, slot, sh.width);
    assert p.pathcode * sh.width >= 0;
  }

  lemma LeadsOn(sh: Shape, look: Slots, root: nat, slots: seq<nat>, b: Bucket, slot: nat)
    requires Leads(sh, look, root, slots, b) && slot < sh.width && look(b, slot) != EMPTY
    ensures Leads(sh, look, root, slots + [slot], Next(sh, look, b, slot))
  {
    assert (slots + [slot])[..|slots|] == slots;
  }

  lemma ExtendLeads(sh: Shape, look: Slots, p: Point, slot: nat, p': Point)
    requires ShapeOk(sh) && PointOk(sh, p) && LeadsThere(sh, look, p) && slot < sh.width
    requires look(Bucket(p.table, p.index), slot) != EMPTY
    requires PointOk(sh, p') && p'.pathcode == p.pathcode * sh.width + slot && p'.depth == p.depth + 1
    requires Bucket(p'.table, p'.index) == Next(sh, look, Bucket(p.table, p.index), slot)
    ensures LeadsThere(sh, look, p')
  {
    ExtendCode(sh, p, slot, p');
    LeadsLater(sh, look, p, slot, p');
  }

  lemma ExtendCode(sh: Shape, p: Point, slot: nat, p': Point)
    requires sh.width >= 2 && PointOk(sh, p) && PointOk(sh, p') && slot < sh.width
    requires p'.pathcode == p.pathcode * sh.width + slot && p'.depth == p.depth + 1
    ensures CodeExtends(sh, p, slot, p')
  {
    Extend(sh, p, slot);
  }

  ghost predicate CodeExtends(sh: Shape, p: Point, slot: nat, p': Point)
    requires sh.width >= 2 && PointOk(sh, p) && PointOk(sh, p')
  {
    && RootOf(p'.pathcode, p'.depth, sh.width) == RootOf(p.pathcode, p.depth, sh.width)
    && SlotsOf(p'.pathcode, p'.depth, sh.width) == SlotsOf(p.pathcode, p.depth, sh.width) + [slot]
  }

  lemma LeadsLater(sh: Shape, look: Slots, p: Point, slot: nat, p': Point)
    requires ShapeOk(sh) && PointOk(sh, p) && LeadsThere(sh, look, p) && slot < sh.width
    requires look(Bucket(p.table, p.index), slot) != EMPTY
    requires PointOk(sh, p') && CodeExtends(sh, p, slot, p')
    requires Bucket(p'.table, p'.index) == Next(sh, look, Bucket(p.table, p.index), slot)
    ensures LeadsThere(sh, look, p')
  {
    LeadsOn(sh, look, RootOf(p.pathcode, p.depth, sh.width), SlotsOf(p.pathcode, p.depth, sh.width),
            Bucket(p.table, p.index), slot);
  }

  // ---- bookkeeping for the loop ----

  ghost function VisitOf(p: Point): Visit
    requires p.index >= 0
  {
    Visit(Bucket(p.table, p.index), p.depth)
  }

  lemma StartOk(sh: Shape, look: Slots)
    requires ShapeOk(sh)
    ensures var q := [Point(1, sh.idx1, 0, 0), Point(2, sh.idx2, 1, 0)];
            && QueueOk(sh, q) && (forall i :: 0 <= i < |q| ==> LeadsThere(sh, look, q[i]))
            && Closed(sh, look, {}, Visits(q))
  {
    var p1, p2 := Point(1, sh.idx1, 0, 0), Point(2, sh.idx2, 1, 0);
    var q := [p1, p2];
    assert p1 in q && p2 in q;
    assert VisitOf(p1) in Visits(q) && VisitOf(p2) in Visits(q);
  }

  lemma PopVisits(q: seq<Point>)
    requires q != [] && q[0].index >= 0
    ensures Visits(q) == {VisitOf(q[0])} + Visits(q[1..])
  {
    assert q == [q[0]] + q[1..];
  }

  lemma PushVisits(q: seq<Point>, p: Point)
    requires p.index >= 0
    ensures Visits(q + [p]) == Visits(q) + {VisitOf(p)}
  {
    assert p in q + [p];
  }

  lemma PushOk(sh: Shape, point: Point, q: seq<Point>, slot: nat, next: Point)
    requires ShapeOk(sh) && PointOk(sh, point) && QueueOk(sh, [point] + q) && slot < sh.width
    requires point.depth < sh.maxDepth - 1 && next.depth == point.depth + 1
    requires next.table == 3 - point.table && 0 <= next.index < sh.buckets
    requires next.pathcode == point.pathcode * sh.width + slot
    ensures PointOk(sh, next) && QueueOk(sh, [point] + (q + [next]))
  {
    Extend(sh, point, slot);
    var q0, q1 := [point] + q, [point] + (q + [next]);
    assert forall i :: 0 <= i < |q0| ==> q1[i] == q0[i];
    assert forall i :: 0 <= i < |q0| ==> q0[0].depth <= q0[i].depth <= q0[0].depth + 1;
  }

  /** `nextPoint`: the other bucket of the value read from a slot, one level down. */
  function NextPoint(sh: Shape, point: Point, slot: nat, val: int): Point {
    Point(3 - point.table, sh.hash(val, 3 - point.table), point.pathcode * sh.width + slot, point.depth + 1)
  }

  lemma SlotInRange(n: nat, width: nat)
    requires width > 0
    ensures 0 <= n % width < width
  {
  }

  lemma PushKeeps(sh: Shape, point: Point, q: seq<Point>, slot: nat, val: int)
    requires ShapeOk(sh) && PointOk(sh, point) && QueueOk(sh, q) && QueueOk(sh, [point] + q) && slot < sh.width
    requires point.depth < sh.maxDepth - 1
    ensures var next := NextPoint(sh, point, slot, val);
            PointOk(sh, next) && QueueOk(sh, q + [next]) && QueueOk(sh, [point] + (q + [next]))
  {
    var next := NextPoint(sh, point, slot, val);
    PushOk(sh, point, q, slot, next);
    TailOk(sh, point, q + [next]);
  }

  lemma TailOk(sh: Shape, point: Point, q: seq<Point>)
    requires ShapeOk(sh) && QueueOk(sh, [point] + q)
    ensures QueueOk(sh, q)
  {
    var all := [point] + q;
    assert forall j :: 0 <= j < |q| ==> q[j] == all[j + 1];
  }

  /** The weight each slot of a point may add to the queue. */
  function Later(sh: Shape, depth: nat): nat
    requires depth < sh.maxDepth
  {
    if depth < sh.maxDepth - 1 then Weight(sh, depth + 1) else 0
  }

  lemma WeightLater(sh: Shape, depth: nat)
    requires depth < sh.maxDepth
    ensures Weight(sh, depth) == 1 + sh.width * Later(sh, depth)
  {
  }

  /** What n slots may add between them. */
  function Credits(n: nat, later: nat): nat {
    if n == 0 then 0 else Credits(n - 1, later) + later
  }

  lemma {:induction false} CreditsTotal(n: nat, later: nat)
    ensures Credits(n, later) == n * later
  {
    if n > 0 { CreditsTotal(n - 1, later); }
  }

  /** The slot is occupied and, if the depth limit allows, its value's other bucket is waiting. */
  ghost predicate SlotDone(sh: Shape, look: Slots, point: Point, slot: nat, waiting: set<Visit>)
    requires point.index >= 0
  {
    var b := Bucket(point.table, point.index);
    && look(b, slot) != EMPTY
    && (point.depth < sh.maxDepth - 1 ==> Visit(Next(sh, look, b, slot), point.depth + 1) in waiting)
  }

  ghost predicate TurnDone(sh: Shape, look: Slots, point: Point, start: nat, k: nat, waiting: set<Visit>)
    requires ShapeOk(sh) && point.index >= 0
  {
    SlotDone(sh, look, point, (start + k) % sh.width, waiting)
  }

  lemma Offset(slot: nat, start: nat, width: nat) returns (k: nat)
    requires slot < width && start < width
    ensures k < width && (start + k) % width == slot
  {
    if slot >= start {
      k := slot - start;
    } else {
      k := slot + width - start;
      assert start + k == slot + width;
    }
  }

  lemma AllSlotsDone(sh: Shape, look: Slots, done: set<Visit>, point: Point, start: nat, waiting: set<Visit>)
    requires ShapeOk(sh) && point.index >= 0 && start < sh.width
    requires forall k :: 0 <= k < sh.width ==> TurnDone(sh, look, point, start, k, waiting)
    requires Closed(sh, look, done, {VisitOf(point)} + waiting)
    ensures Closed(sh, look, done + {VisitOf(point)}, waiting)
  {
    forall s | 0 <= s < sh.width ensures SlotDone(sh, look, point, s, waiting) {
      var k := Offset(s, start, sh.width);
      assert TurnDone(sh, look, point, start, k, waiting);
    }
    var b, done' := Bucket(point.table, point.index), done + {VisitOf(point)};
    assert Full(sh, look, b) by {
      forall s | 0 <= s < sh.width ensures look(b, s) != EMPTY { assert SlotDone(sh, look, point, s, waiting); }
    }
    forall v, s | v in done' && 0 <= s < sh.width && v.depth < sh.maxDepth - 1
      ensures Visit(Next(sh, look, v.b, s), v.depth + 1) in done' + waiting
    {
      if v == VisitOf(point) { assert SlotDone(sh, look, point, s, waiting); }
    }
  }

  lemma FoundOk(sh: Shape, point: Point, slot: nat)
    requires ShapeOk(sh) && PointOk(sh, point) && slot < sh.width
    ensures ResultOk(sh, point.(pathcode := point.pathcode * sh.width + slot))
  {
    Extend(sh, point, slot);
    CodeBound(point.pathcode * sh.width + slot, point.depth + 1, sh.width);
  }

  lemma FoundShortest(sh: Shape, look: Slots, done: set<Visit>, point: Point, q: seq<Point>, slot: nat)
    requires ShapeOk(sh) && PointOk(sh, point) && QueueOk(sh, [point] + q) && LeadsThere(sh, look, point)
    requires Closed(sh, look, done, {VisitOf(point)} + Visits(q))
    requires slot < sh.width && look(Bucket(point.table, point.index), slot) == EMPTY
    requires point.pathcode * sh.width + slot >= 0
    ensures Shortest(sh, look, point.(pathcode := point.pathcode * sh.width + slot))
  {
    Extend(sh, point, slot);
    NoneCloserFromQueue(sh, look, done, point, q);
    var slots := SlotsOf(point.pathcode, point.depth, sh.width);
    assert (slots + [slot])[..point.depth] == slots;
  }

  lemma NoneCloserFromQueue(sh: Shape, look: Slots, done: set<Visit>, point: Point, q: seq<Point>)
    requires ShapeOk(sh) && PointOk(sh, point) && QueueOk(sh, [point] + q)
    requires Closed(sh, look, done, {VisitOf(point)} + Visits(q))
    ensures NoneCloser(sh, look, point.depth)
  {
    var waiting := {VisitOf(point)} + Visits(q);
    forall v | v in waiting ensures v.depth >= point.depth {
      if v != VisitOf(point) {
        var p :| p in q && p.index >= 0 && v == Visit(Bucket(p.table, p.index), p.depth);
        var i :| 0 <= i < |q| && q[i] == p;
        var all := [point] + q;
        assert all[0] == point && all[i + 1] == p;
        assert all[0].depth <= all[i + 1].depth;
      }
    }
    NoneCloserFromClosed(sh, look, done, waiting, point.depth);
  }

  // ---- giving up ----

  /** A place in the search: how deep, and by which code. */
  datatype Id = Id(depth: int, code: int)

  function IdOf(p: Point): Id {
    Id(p.depth, p.pathcode)
  }

  function ParentOf(id: Id, width: nat): Id
    requires width > 0
  {
    Id(id.depth - 1, id.code / width)
  }

  /** No place is queued twice or queued again, and a place comes after its parent. */
  ghost predicate IdsOk(width: nat, popped: set<Id>, q: seq<Point>)
    requires width > 0
  {
    && (forall i, j :: 0 <= i < j < |q| ==> IdOf(q[i]) != IdOf(q[j]))
    && (forall i :: 0 <= i < |q| ==> IdOf(q[i]) !in popped)
    && (forall id :: id in popped && id.depth > 0 ==> ParentOf(id, width) in popped)
    && (forall i :: 0 <= i < |q| && q[i].depth > 0 ==> ParentOf(IdOf(q[i]), width) in popped)
  }

  /** The scan has appended the places below the point, in the order of its turns. */
  ghost predicate KidsAdded(sh: Shape, point: Point, start: nat, queue: seq<Point>, q: seq<Point>)
    requires sh.width > 0
  {
    && |queue| <= |q| <= |queue| + sh.width && q[..|queue|] == queue
    && forall j :: |queue| <= j < |q| ==> KidAt(sh, point, start, j - |queue|, q[j])
  }

  ghost predicate KidAt(sh: Shape, point: Point, start: nat, k: nat, kid: Point)
    requires sh.width > 0
  {
    kid.depth == point.depth + 1 && kid.pathcode == point.pathcode * sh.width + (start + k) % sh.width
  }

  lemma KidsPush(sh: Shape, point: Point, start: nat, queue: seq<Point>, q: seq<Point>, slot: nat, next: Point)
    requires sh.width > 0 && KidsAdded(sh, point, start, queue, q) && |q| - |queue| < sh.width
    requires slot == (start + (|q| - |queue|)) % sh.width
    requires next.depth == point.depth + 1 && next.pathcode == point.pathcode * sh.width + slot
    ensures KidsAdded(sh, point, start, queue, q + [next])
  {
    var q' := q + [next];
    assert q'[..|queue|] == q[..|queue|];
    forall j | |queue| <= j < |q'| ensures KidAt(sh, point, start, j - |queue|, q'[j]) {
      if j < |q| { assert KidAt(sh, point, start, j - |queue|, q[j]); }
    }
  }

  /** The queue after i turns of the scan, however the table changes. */
  ghost predicate Scanned(sh: Shape, point: Point, start: nat, queue: seq<Point>, i: nat, q: seq<Point>)
    requires sh.width >= 2
  {
    && QueueOk(sh, q) && QueueOk(sh, [point] + q) && KidsAdded(sh, point, start, queue, q)
    && |q| - |queue| == if point.depth < sh.maxDepth - 1 then i else 0
  }

  lemma ScanPush(sh: Shape, point: Point, start: nat, queue: seq<Point>, i: nat, q: seq<Point>, slot: nat, val: int)
    requires ShapeOk(sh) && PointOk(sh, point) && i < sh.width && point.depth < sh.maxDepth - 1
    requires slot == (start + i) % sh.width && slot < sh.width && Scanned(sh, point, start, queue, i, q)
    ensures var next := NextPoint(sh, point, slot, val);
            PointOk(sh, next) && Scanned(sh, point, start, queue, i + 1, q + [next])
  {
    PushKeeps(sh, point, q, slot, val);
    KidsPush(sh, point, start, queue, q, slot, NextPoint(sh, point, slot, val));
  }

  lemma {:induction false} KidsWeight(sh: Shape, point: Point, start: nat, queue: seq<Point>, q: seq<Point>)
    requires sh.width >= 2 && 0 <= point.depth < sh.maxDepth && QueueOk(sh, q) && KidsAdded(sh, point, start, queue, q)
    requires |q| > |queue| ==> point.depth < sh.maxDepth - 1
    ensures QueueOk(sh, queue)
    ensures QueueWeight(sh, q) == QueueWeight(sh, queue) + Credits(|q| - |queue|, Later(sh, point.depth))
    decreases |q|
  {
    if |q| == |queue| {
      assert q == queue;
    } else {
      var init := q[..|q| - 1];
      assert init[..|queue|] == queue;
      KidsWeight(sh, point, start, queue, init);
      assert KidAt(sh, point, start, |q| - 1 - |queue|, q[|q| - 1]);
    }
  }

  lemma {:induction false} CreditsGrow(m: nat, n: nat, later: nat)
    requires m <= n
    ensures Credits(m, later) <= Credits(n, later)
  {
    if m < n { CreditsGrow(m, n - 1, later); }
  }

  /** What a scan adds to the queue weighs less than the point it was for. */
  lemma ScanWeight(sh: Shape, point: Point, start: nat, queue: seq<Point>, i: nat, q: seq<Point>)
    requires sh.width >= 2 && 0 <= point.depth < sh.maxDepth && i <= sh.width && Scanned(sh, point, start, queue, i, q)
    ensures QueueOk(sh, queue) && QueueWeight(sh, q) < QueueWeight(sh, queue) + Weight(sh, point.depth)
  {
    KidsWeight(sh, point, start, queue, q);
    CreditsGrow(|q| - |queue|, sh.width, Later(sh, point.depth));
    CreditsTotal(sh.width, Later(sh, point.depth));
    WeightLater(sh, point.depth);
  }

  lemma KidPlace(sh: Shape, point: Point, start: nat, k: nat, kid: Point)
    requires sh.width > 0 && point.pathcode >= 0 && KidAt(sh, point, start, k, kid)
    ensures ParentOf(IdOf(kid), sh.width) == IdOf(point) && kid.pathcode % sh.width == (start + k) % sh.width
  {
    var slot := (start + k) % sh.width;
    SlotInRange(start + k, sh.width);
    AppendDigit(point.pathcode, slot, sh.width);
  }

  lemma TurnsDistinct(start: nat, j: nat, k: nat, width: nat)
    requires start < width && j < k < width
    ensures (start + j) % width != (start + k) % width
  {
    Turn(start + j, width);
    Turn(start + k, width);
  }

  lemma Turn(n: nat, width: nat)
    requires n < width + width && width > 0
    ensures n % width == if n < width then n else n - width
  {
    if n >= width {
      var r := n - width;
      assert n == 1 * width + r && n / width == 1;
    }
  }

  /** A place below the point, which is new by its parent. */
  ghost predicate Below(id: Id, point: Point, width: nat)
    requires width > 0
  {
    id.depth == point.depth + 1 && ParentOf(id, width) == IdOf(point)
  }

  lemma KidsBelow(sh: Shape, point: Point, start: nat, queue: seq<Point>, q: seq<Point>)
    requires sh.width > 0 && point.pathcode >= 0 && start < sh.width && KidsAdded(sh, point, start, queue, q)
    ensures forall j :: |queue| <= j < |q| ==> Below(IdOf(q[j]), point, sh.width)
    ensures forall i, j :: |queue| <= i < j < |q| ==> IdOf(q[i]) != IdOf(q[j])
  {
    var n := |queue|;
    forall j | n <= j < |q|
      ensures Below(IdOf(q[j]), point, sh.width) && q[j].pathcode % sh.width == (start + (j - n)) % sh.width
    {
      KidPlace(sh, point, start, j - n, q[j]);
    }
    forall i, j | n <= i < j < |q| ensures IdOf(q[i]) != IdOf(q[j]) {
      TurnsDistinct(start, i - n, j - n, sh.width);
    }
  }

  lemma IdsAfterScan(sh: Shape, popped: set<Id>, point: Point, start: nat, queue: seq<Point>, q: seq<Point>)
    requires sh.width > 0 && point.pathcode >= 0 && point.depth >= 0 && start < sh.width
    requires IdsOk(sh.width, popped, [point] + queue) && KidsAdded(sh, point, start, queue, q)
    ensures IdsOk(sh.width, popped + {IdOf(point)}, q)
  {
    KidsBelow(sh, point, start, queue, q);
    OldIds(sh.width, popped, point, queue);
    assert forall i :: 0 <= i < |queue| ==> q[i] == queue[i];
  }

  /** None of the places known before the scan is below the point. */
  lemma OldIds(width: nat, popped: set<Id>, point: Point, queue: seq<Point>)
    requires width > 0 && point.depth >= 0 && IdsOk(width, popped, [point] + queue)
    ensures IdsOk(width, popped + {IdOf(point)}, queue) && IdOf(point) !in popped
    ensures forall id :: id in popped + {IdOf(point)} ==> !Below(id, point, width)
    ensures forall i :: 0 <= i < |queue| ==> !Below(IdOf(queue[i]), point, width)
  {
    var all := [point] + queue;
    assert all[0] == point && forall i :: 0 <= i < |queue| ==> all[i + 1] == queue[i];
  }

  /** The slot whose value a popped point is remembered by. */
  function EntryOf(sh: Shape, look: Slots, p: Point): int
    requires sh.width > 0 && p.index >= 0 && p.pathcode >= 0
  {
    look(Bucket(p.table, p.index), p.pathcode % sh.width)
  }

  /** A point the search has popped and found full. */
  ghost predicate PassedBy(sh: Shape, look: Slots, p: Point)
    requires ShapeOk(sh)
  {
    PointOk(sh, p) && LeadsThere(sh, look, p) && Full(sh, look, Bucket(p.table, p.index))
  }

  /** The remembered values are those of full points no deeper than d. */
  ghost predicate Remembered(sh: Shape, look: Slots, paths: set<int>, popped: set<Id>, d: int)
    requires ShapeOk(sh)
  {
    forall val :: val in paths ==>
      exists p :: PassedBy(sh, look, p) && IdOf(p) in popped && p.depth <= d && EntryOf(sh, look, p) == val
  }

  lemma RememberOne(sh: Shape, look: Slots, paths: set<int>, popped: set<Id>, d: int, p: Point, d': int)
    requires ShapeOk(sh) && Remembered(sh, look, paths, popped, d) && PassedBy(sh, look, p) && d <= p.depth <= d'
    ensures Remembered(sh, look, paths + {EntryOf(sh, look, p)}, popped + {IdOf(p)}, d')
  {
    var popped' := popped + {IdOf(p)};
    forall val | val in paths + {EntryOf(sh, look, p)}
      ensures exists x :: PassedBy(sh, look, x) && IdOf(x) in popped' && x.depth <= d' && EntryOf(sh, look, x) == val
    {
      if val in paths {
        var x :| PassedBy(sh, look, x) && IdOf(x) in popped && x.depth <= d && EntryOf(sh, look, x) == val;
        assert IdOf(x) in popped';
      } else {
        assert IdOf(p) in popped' && EntryOf(sh, look, p) == val;
      }
    }
  }

  /**
   The search takes q for a loop: another place, no deeper and full, is remembered by the same value,
   and every bucket nearer than q is full.
   */
  ghost predicate LoopAt(sh: Shape, look: Slots, p: Point, q: Point)
    requires ShapeOk(sh)
  {
    && PassedBy(sh, look, p) && PointOk(sh, q) && LeadsThere(sh, look, q) && IdOf(p) != IdOf(q) && p.depth <= q.depth
    && EntryOf(sh, look, p) == EntryOf(sh, look, q) && NoneCloser(sh, look, q.depth)
  }

  /**
   Why a search of a table that stands still comes back with nothing: a
   loop, or no empty slot within the depth limit.
   */
  ghost predicate GivesUp(sh: Shape, look: Slots)
    requires ShapeOk(sh)
  {
    NoneCloser(sh, look, sh.maxDepth) || exists p, q :: LoopAt(sh, look, p, q)
  }

  predicate Composed(rest: nat, last: nat, width: nat, code: nat) {
    rest * width + last == code
  }

  lemma LastDigitOff(code: nat, n: nat, width: nat) returns (rest: nat, last: nat)
    requires width >= 2 && n > 0
    ensures Composed(rest, last, width, code)
    ensures RootOf(code, n, width) == RootOf(rest, n - 1, width)
    ensures SlotsOf(code, n, width) == SlotsOf(rest, n - 1, width) + [last]
  {
    rest, last := code / width, code % width;
    Recombined(code, width);
  }

  lemma Recombined(code: nat, width: nat)
    requires width > 0
    ensures code / width * width + code % width == code
  {
  }

  lemma ComposedOnce(rest: nat, last: nat, width: nat, x: nat, y: nat)
    requires Composed(rest, last, width, x) && Composed(rest, last, width, y)
    ensures x == y
  {
  }

  /** Only one code decodes to a root choice and slots. */
  lemma {:induction false} SameCode(x: nat, y: nat, n: nat, width: nat, root: nat, slots: seq<nat>)
    requires width >= 2 && RootOf(x, n, width) == root == RootOf(y, n, width)
    requires SlotsOf(x, n, width) == slots == SlotsOf(y, n, width)
    ensures x == y
    decreases n
  {
    if n > 0 {
      var restX, lastX := LastDigitOff(x, n, width);
      var restY, lastY := LastDigitOff(y, n, width);
      assert slots[..n - 1] == SlotsOf(restX, n - 1, width) == SlotsOf(restY, n - 1, width);
      assert slots[n - 1] == lastX == lastY;
      SameCode(restX, restY, n - 1, width, root, slots[..n - 1]);
      ComposedOnce(restX, lastX, width, x, y);
    }
  }

  /** The value by which the search remembers where the slots lead. */
  ghost function EntryOfWay(sh: Shape, look: Slots, root: nat, slots: seq<nat>): int {
    look(Walk(sh, look, root, slots), if slots == [] then root else slots[|slots| - 1])
  }

  lemma EntryIsOfWay(sh: Shape, look: Slots, p: Point)
    requires ShapeOk(sh) && PointOk(sh, p) && LeadsThere(sh, look, p)
    ensures EntryOf(sh, look, p) ==
              EntryOfWay(sh, look, RootOf(p.pathcode, p.depth, sh.width), SlotsOf(p.pathcode, p.depth, sh.width))
  {
    if p.depth == 0 { SmallRest(p.pathcode, sh.width); }
  }

  lemma SmallRest(n: nat, width: nat)
    requires n < width
    ensures n % width == n
  {
  }

  /** What the search takes for a loop, as two different ways into the table. */
  lemma LoopIsTwoWays(sh: Shape, look: Slots, p: Point, q: Point)
    returns (root: nat, slots: seq<nat>, root': nat, slots': seq<nat>)
    requires ShapeOk(sh) && LoopAt(sh, look, p, q)
    ensures (root, slots) != (root', slots') && |slots| <= |slots'| < sh.maxDepth
    ensures Trail(sh, look, root, slots) && Trail(sh, look, root', slots')
    ensures Full(sh, look, Walk(sh, look, root, slots))
    ensures EntryOfWay(sh, look, root, slots) == EntryOfWay(sh, look, root', slots')
    ensures NoneCloser(sh, look, |slots'|)
  {
    root, slots := RootOf(p.pathcode, p.depth, sh.width), SlotsOf(p.pathcode, p.depth, sh.width);
    root', slots' := RootOf(q.pathcode, q.depth, sh.width), SlotsOf(q.pathcode, q.depth, sh.width);
    EntryIsOfWay(sh, look, p);
    EntryIsOfWay(sh, look, q);
    if (root, slots) == (root', slots') { SameCode(p.pathcode, q.pathcode, p.depth, sh.width, root, slots); }
  }

  /** What the search knows at the head of its loop in a table that stands still. */
  ghost predicate Progressing(sh: Shape, look: Slots, done: set<Visit>, paths: set<int>, popped: set<Id>,
                              q: seq<Point>, d: int)
    requires ShapeOk(sh)
  {
    && QueueOk(sh, q) && QueueLeads(sh, look, q) && Closed(sh, look, done, Visits(q)) && IdsOk(sh.width, popped, q)
    && Remembered(sh, look, paths, popped, d) && (q != [] ==> d <= q[0].depth)
  }

  lemma StartProgress(sh: Shape, look: Slots)
    requires ShapeOk(sh)
    ensures Progressing(sh, look, {}, {}, {}, [Point(1, sh.idx1, 0, 0), Point(2, sh.idx2, 1, 0)], 0)
  {
    StartOk(sh, look);
  }

  lemma HeadProgress(sh: Shape, look: Slots, done: set<Visit>, paths: set<int>, popped: set<Id>, q: seq<Point>, d: int)
    requires ShapeOk(sh) && Progressing(sh, look, done, paths, popped, q, d) && q != []
    ensures [q[0]] + q[1..] == q && QueueLeads(sh, look, [q[0]] + q[1..]) && QueueOk(sh, q[1..])
    ensures PointOk(sh, q[0]) && LeadsThere(sh, look, q[0])
    ensures Closed(sh, look, done, {VisitOf(q[0])} + Visits(q[1..]))
  {
    assert [q[0]] + q[1..] == q;
    TailLeads(sh, look, q[0], q[1..]);
    PopVisits(q);
  }

  lemma LoopFound(sh: Shape, look: Slots, done: set<Visit>, paths: set<int>, popped: set<Id>, q: seq<Point>, d: int)
    requires ShapeOk(sh) && Progressing(sh, look, done, paths, popped, q, d) && q != []
    requires PointOk(sh, q[0]) && EntryOf(sh, look, q[0]) in paths
    ensures GivesUp(sh, look)
  {
    HeadProgress(sh, look, done, paths, popped, q, d);
    var val := EntryOf(sh, look, q[0]);
    var p :| PassedBy(sh, look, p) && IdOf(p) in popped && p.depth <= d && EntryOf(sh, look, p) == val;
    NoneCloserFromQueue(sh, look, done, q[0], q[1..]);
    assert LoopAt(sh, look, p, q[0]);
  }

  lemma ScanProgress(sh: Shape, look: Slots, done: set<Visit>, paths: set<int>, popped: set<Id>, q: seq<Point>, d: int,
                     start: nat, q': seq<Point>)
    requires ShapeOk(sh) && Progressing(sh, look, done, paths, popped, q, d) && q != [] && start < sh.width
    requires PointOk(sh, q[0]) && KidsAdded(sh, q[0], start, q[1..], q')
    requires QueueOk(sh, q') && QueueOk(sh, [q[0]] + q') && QueueLeads(sh, look, q')
    requires Closed(sh, look, done + {VisitOf(q[0])}, Visits(q'))
    ensures Progressing(sh, look, done + {VisitOf(q[0])}, paths + {EntryOf(sh, look, q[0])}, popped + {IdOf(q[0])},
                        q', q[0].depth)
  {
    HeadProgress(sh, look, done, paths, popped, q, d);
    IdsAfterScan(sh, popped, q[0], start, q[1..], q');
    assert VisitOf(q[0]) in done + {VisitOf(q[0])};
    assert PassedBy(sh, look, q[0]);
    RememberOne(sh, look, paths, popped, d, q[0], q[0].depth);
    HeadDepth(sh, q[0], q');
  }

  lemma HeadDepth(sh: Shape, p: Point, q: seq<Point>)
    requires sh.width >= 2 && QueueOk(sh, [p] + q)
    ensures q != [] ==> p.depth <= q[0].depth
  {
    var all := [p] + q;
    if q != [] { assert all[0] == p && all[1] == q[0]; }
  }

  /** What any result promises, whatever the other threads did meanwhile. */
  ghost predicate ResultOk(sh: Shape, p: Point)
    requires ShapeOk(sh)
  {
    p == NO_POINT ||
    (&& 0 <= p.depth < sh.maxDepth && (p.table == 1 || p.table == 2) && 0 <= p.index < sh.buckets
     && p.pathcode >= 0 && RootOf(p.pathcode, p.depth + 1, sh.width) < 2
     && p.pathcode < 2 * Pow(sh.width, p.depth + 1))
  }

  /** Width and depth limit of the two stores. */
  predicate StoreShape(sh: Shape) {
    (sh.width == 6 && sh.maxDepth == 7) || (sh.width == 8 && sh.maxDepth == 5)
  }

  /** The codes of both stores fit the int they are kept in. */
  lemma ResultFitsInt32(sh: Shape, p: Point)
    requires ShapeOk(sh) && ResultOk(sh, p)
    ensures StoreShape(sh) ==> p.pathcode < 0x8000_0000
  {
    if p != NO_POINT && StoreShape(sh) {
      PowGrows(sh.width, p.depth + 1, sh.maxDepth);
      CodesFitInt32();
    }
  }

  /** What the loop knows of the queue once the table is known to stand still. */
  ghost predicate QueueLeads(sh: Shape, look: Slots, q: seq<Point>)
    requires ShapeOk(sh)
  {
    forall i :: 0 <= i < |q| ==> PointOk(sh, q[i]) && LeadsThere(sh, look, q[i])
  }

  /**
   The inner loop: each slot of the point's bucket in turn, from a random start. It stops at an
   empty slot, or else pushes the other bucket of every occupant it reads.
   */
  method ScanBucket(sh: Shape, read: Reader, ghost look: Slots, ghost done: set<Visit>, point: Point, start: nat,
                queue: seq<Point>, clock: nat)
    returns (hit: int, q: seq<Point>, time: nat)
    requires ShapeOk(sh) && PointOk(sh, point) && start < sh.width && QueueOk(sh, queue)
    requires QueueOk(sh, [point] + queue)
    requires Stable(read, look) ==> QueueLeads(sh, look, [point] + queue)
    requires Stable(read, look) ==> Closed(sh, look, done, {VisitOf(point)} + Visits(queue))
    ensures -1 <= hit < sh.width && QueueOk(sh, q) && QueueOk(sh, [point] + q)
    ensures QueueWeight(sh, q) < QueueWeight(sh, queue) + Weight(sh, point.depth)
    ensures Stable(read, look) ==> QueueLeads(sh, look, q)
    ensures Stable(read, look) && hit >= 0 ==>
              && look(Bucket(point.table, point.index), hit) == EMPTY
              && Closed(sh, look, done, {VisitOf(point)} + Visits(q))
    ensures Stable(read, look) && hit == -1 ==> Closed(sh, look, done + {VisitOf(point)}, Visits(q))
    ensures KidsAdded(sh, point, start, queue, q)
  {
    q, time := queue, clock;
    ghost var stable := Stable(read, look);
    var bucket := Bucket(point.table, point.index);
    TailLeads(sh, look, point, queue);
    var i := 0;
    while i < sh.width
      invariant 0 <= i <= sh.width
      invariant Scanned(sh, point, start, queue, i, q)
      invariant stable ==> QueueLeads(sh, look, q) && Progress(sh, look, done, point, start, i, q)
    {
      var slot := (start + i) % sh.width;
      SlotInRange(start + i, sh.width);
      var occupant := read(time, bucket, slot);
      time := time + 1;
      if occupant == EMPTY {
        ScanWeight(sh, point, start, queue, i, q);
        return slot, q, time;
      }
      if point.depth < sh.maxDepth - 1 {
        var again := read(time, bucket, slot);
        time := time + 1;
        var next := NextPoint(sh, point, slot, again);
        ScanPush(sh, point, start, queue, i, q, slot, again);
        if stable {
          assert again == look(bucket, slot) && occupant == again;
          PushStable(sh, look, done, point, q, start, i, slot);
        }
        q := q + [next];
      } else if stable {
        LastDepth(sh, look, done, point, q, start, i, slot);
      }
      i := i + 1;
    }
    hit := -1;
    ScanWeight(sh, point, start, queue, i, q);
    if stable { AllSlotsDone(sh, look, done, point, start, Visits(q)); }
  }

  /** The first i slots from the start are occupied and their values' other buckets are in the queue. */
  ghost predicate Progress(sh: Shape, look: Slots, done: set<Visit>, point: Point, start: nat, i: nat, q: seq<Point>)
    requires ShapeOk(sh) && point.index >= 0
  {
    && Closed(sh, look, done, {VisitOf(point)} + Visits(q))
    && forall k :: 0 <= k < i ==> TurnDone(sh, look, point, start, k, Visits(q))
  }

  lemma LastDepth(sh: Shape, look: Slots, done: set<Visit>, point: Point, q: seq<Point>, start: nat, i: nat, slot: nat)
    requires ShapeOk(sh) && PointOk(sh, point) && point.depth == sh.maxDepth - 1
    requires start < sh.width && i < sh.width && slot == (start + i) % sh.width
    requires look(Bucket(point.table, point.index), slot) != EMPTY
    requires Progress(sh, look, done, point, start, i, q)
    ensures Progress(sh, look, done, point, start, i + 1, q)
  {
    assert TurnDone(sh, look, point, start, i, Visits(q));
  }

  lemma TailLeads(sh: Shape, look: Slots, point: Point, q: seq<Point>)
    requires ShapeOk(sh)
    ensures QueueLeads(sh, look, [point] + q) ==>
              QueueLeads(sh, look, q) && PointOk(sh, point) && LeadsThere(sh, look, point)
    ensures QueueOk(sh, [point] + q) ==> QueueOk(sh, q)
  {
    var all := [point] + q;
    assert all[0] == point;
    assert forall j :: 0 <= j < |q| ==> q[j] == all[j + 1];
  }

  lemma PushStable(sh: Shape, look: Slots, done: set<Visit>, point: Point, q: seq<Point>, start: nat, i: nat,
                   slot: nat)
    requires ShapeOk(sh) && PointOk(sh, point) && LeadsThere(sh, look, point) && QueueLeads(sh, look, q)
    requires start < sh.width && i < sh.width && point.depth < sh.maxDepth - 1
    requires slot == (start + i) % sh.width && look(Bucket(point.table, point.index), slot) != EMPTY
    requires PointOk(sh, NextPoint(sh, point, slot, look(Bucket(point.table, point.index), slot)))
    requires Progress(sh, look, done, point, start, i, q)
    ensures var next := NextPoint(sh, point, slot, look(Bucket(point.table, point.index), slot));
            QueueLeads(sh, look, q + [next]) && Progress(sh, look, done, point, start, i + 1, q + [next])
  {
    var next := NextPoint(sh, point, slot, look(Bucket(point.table, point.index), slot));
    ExtendLeads(sh, look, point, slot, next);
    PushVisits(q, next);
    PushLeads(sh, look, q, next);
    MoreTurns(sh, look, point, start, i, slot, Visits(q), Visits(q + [next]));
  }

  lemma PushLeads(sh: Shape, look: Slots, q: seq<Point>, next: Point)
    requires ShapeOk(sh) && QueueLeads(sh, look, q) && PointOk(sh, next) && LeadsThere(sh, look, next)
    ensures QueueLeads(sh, look, q + [next])
  {
  }

  lemma MoreTurns(sh: Shape, look: Slots, point: Point, start: nat, i: nat, slot: nat, waiting: set<Visit>,
                  waiting': set<Visit>)
    requires ShapeOk(sh) && point.index >= 0 && waiting <= waiting'
    requires forall k :: 0 <= k < i ==> TurnDone(sh, look, point, start, k, waiting)
    requires slot == (start + i) % sh.width && SlotDone(sh, look, point, slot, waiting')
    ensures forall k :: 0 <= k < i + 1 ==> TurnDone(sh, look, point, start, k, waiting')
  {
    forall k | 0 <= k < i + 1 ensures TurnDone(sh, look, point, start, k, waiting') {
      if k < i {
        assert TurnDone(sh, look, point, start, k, waiting);
        SlotStays(sh, look, point, (start + k) % sh.width, waiting, waiting');
      }
    }
  }

  lemma SlotStays(sh: Shape, look: Slots, point: Point, slot: nat, waiting: set<Visit>, waiting': set<Visit>)
    requires ShapeOk(sh) && point.index >= 0 && waiting <= waiting' && SlotDone(sh, look, point, slot, waiting)
    ensures SlotDone(sh, look, point, slot, waiting')
  {
  }

  /** The point with the empty slot's number appended to its code. */
  function Landed(sh: Shape, point: Point, slot: nat): Point {
    point.(pathcode := point.pathcode * sh.width + slot)
  }

  lemma LandedOk(sh: Shape, look: Slots, done: set<Visit>, point: Point, q: seq<Point>, slot: nat, stable: bool)
    requires ShapeOk(sh) && PointOk(sh, point) && QueueOk(sh, [point] + q) && slot < sh.width
    requires stable ==>
               && LeadsThere(sh, look, point) && Closed(sh, look, done, {VisitOf(point)} + Visits(q))
               && look(Bucket(point.table, point.index), slot) == EMPTY
    ensures var found := Landed(sh, point, slot);
            ResultOk(sh, found) && found != NO_POINT && (stable ==> Shortest(sh, look, found))
  {
    FoundOk(sh, point, slot);
    if stable { FoundShortest(sh, look, done, point, q, slot); }
  }

  /** What has been seen so far of a table that stands still. */
  datatype Seen = Seen(done: set<Visit>, popped: set<Id>, deepest: int)

  ghost predicate Answers(sh: Shape, look: Slots, found: Point, stable: bool)
    requires ShapeOk(sh)
  {
    && ResultOk(sh, found)
    && (stable && found != NO_POINT ==> Shortest(sh, look, found))
    && (stable && found == NO_POINT ==> GivesUp(sh, look))
  }

  /** One round of the search: pop a point, and unless its value was seen before scan its bucket. */
  method Pass(sh: Shape, read: Reader, draw: nat, ghost look: Slots, ghost seen: Seen, paths: set<int>,
              queue: seq<Point>, clock: nat)
    returns (stop: bool, found: Point, q: seq<Point>, time: nat, val: int, ghost seen': Seen)
    requires ShapeOk(sh) && QueueOk(sh, queue) && queue != []
    requires Stable(read, look) ==> Progressing(sh, look, seen.done, paths, seen.popped, queue, seen.deepest)
    ensures stop ==> Answers(sh, look, found, Stable(read, look))
    ensures !stop ==> QueueOk(sh, q) && QueueWeight(sh, q) < QueueWeight(sh, queue)
    ensures !stop && Stable(read, look) ==>
              Progressing(sh, look, seen'.done, paths + {val}, seen'.popped, q, seen'.deepest)
  {
    ghost var stable := Stable(read, look);
    var point, rest := queue[0], queue[1..];
    assert queue == [point] + rest;
    PopWeight(sh, queue);
    TailOk(sh, point, rest);
    if stable { HeadProgress(sh, look, seen.done, paths, seen.popped, queue, seen.deepest); }
    val := read(clock, Bucket(point.table, point.index), point.pathcode % sh.width);
    found, q, time, seen' := NO_POINT, rest, clock + 1, seen;
    if val in paths {
      if stable { LoopFound(sh, look, seen.done, paths, seen.popped, queue, seen.deepest); }
      return true, found, q, time, val, seen';
    }
    var start := draw % sh.width;
    var hit;
    hit, q, time := ScanBucket(sh, read, look, seen.done, point, start, rest, time);
    if hit >= 0 {
      LandedOk(sh, look, seen.done, point, q, hit, stable);
      return true, Landed(sh, point, hit), q, time, val, seen';
    }
    if stable { ScanProgress(sh, look, seen.done, paths, seen.popped, queue, seen.deepest, start, q); }
    seen' := Seen(seen.done + {VisitOf(point)}, seen.popped + {IdOf(point)}, point.depth);
    stop := false;
  }

  /**
   The search. It ends however the reads come out, and any code it returns decodes to a root choice
   and slots within bounds; in a table that stands still it returns a shortest eviction path, or
   gives up because of a loop or because no empty slot is within the depth limit.
   */
  method Search(sh: Shape, read: Reader, random: nat -> nat, ghost look: Slots) returns (found: Point)
    requires ShapeOk(sh)
    ensures ResultOk(sh, found) && (StoreShape(sh) ==> found.pathcode < 0x8000_0000)
    ensures Stable(read, look) && found != NO_POINT ==> Shortest(sh, look, found)
    ensures Stable(read, look) && found == NO_POINT ==> GivesUp(sh, look)
  {
    var q := [Point(1, sh.idx1, 0, 0), Point(2, sh.idx2, 1, 0)];
    var paths: set<int> := {};
    var time, draws := 0, 0;
    ghost var seen := Seen({}, {}, 0);
    StartProgress(sh, look);
    while q != []
      invariant QueueOk(sh, q)
      invariant Stable(read, look) ==> Progressing(sh, look, seen.done, paths, seen.popped, q, seen.deepest)
      decreases QueueWeight(sh, q)
    {
      var stop, val;
      stop, found, q, time, val, seen := Pass(sh, read, random(draws), look, seen, paths, q, time);
      if stop {
        ResultFitsInt32(sh, found);
        return;
      }
      paths, draws := paths + {val}, draws + 1;
    }
    if Stable(read, look) { NoneCloserFromClosed(sh, look, seen.done, {}, sh.maxDepth); }
    found := NO_POINT;
  }

  /** The decoding loop: slots from the deepest up, then the root choice is what is left. */
  method DecodePath(pathcode: nat, depth: nat, width: nat, path: array<nat>) returns (root: nat)
    requires width >= 2 && depth < path.Length
    modifies path
    ensures root == RootOf(pathcode, depth + 1, width)
    ensures path[..depth + 1] == SlotsOf(pathcode, depth + 1, width)
  {
    var i: int := depth;
    root := pathcode;
    ghost var n := depth + 1;
    ghost var slots := SlotsOf(pathcode, n, width);
    while i >= 0
      invariant -1 <= i < n
      invariant RootOf(root, i + 1, width) == RootOf(pathcode, n, width)
      invariant SlotsOf(root, i + 1, width) == slots[..i + 1]
      invariant path[i + 1..n] == slots[i + 1..]
    {
      LastDigit(root, i + 1, width, slots);
      path[i] := root % width;
      assert path[i..n] == [path[i]] + path[i + 1..n];
      assert slots[i..] == [slots[i]] + slots[i + 1..];
      root := root / width;
      i := i - 1;
    }
    assert path[0..n] == path[..n];
  }

  lemma LastDigit(code: nat, n: nat, width: nat, slots: seq<nat>)
    requires width >= 2 && 1 <= n <= |slots| && SlotsOf(code, n, width) == slots[..n]
    ensures code % width == slots[n - 1]
    ensures SlotsOf(code / width, n - 1, width) == slots[..n - 1]
  {
    var all := SlotsOf(code, n, width);
    assert all == SlotsOf(code / width, n - 1, width) + [code % width];
    assert all[n - 1] == slots[n - 1];
    assert all[..n - 1] == slots[..n - 1];
  }

  // ---- shortest paths never visit a bucket twice ----

  lemma {:induction false} TrailPrefix(sh: Shape, look: Slots, root: nat, slots: seq<nat>, i: nat)
    requires Trail(sh, look, root, slots) && i <= |slots|
    ensures Trail(sh, look, root, slots[..i])
    ensures i < |slots| ==> slots[i] < sh.width && look(Walk(sh, look, root, slots[..i]), slots[i]) != EMPTY
    ensures i < |slots| ==>
              Walk(sh, look, root, slots[..i + 1]) == Next(sh, look, Walk(sh, look, root, slots[..i]), slots[i])
    decreases |slots|
  {
    if i < |slots| {
      var init := slots[..|slots| - 1];
      assert slots[..i + 1][..i] == slots[..i];
      if i < |init| {
        TrailPrefix(sh, look, root, init, i);
        assert init[..i] == slots[..i];
      } else {
        assert init == slots[..i];
      }
    } else {
      assert slots[..i] == slots;
    }
  }

  /** If a and b end in the same bucket, what follows b may follow a instead. */
  lemma {:induction false} Splice(sh: Shape, look: Slots, root: nat, a: seq<nat>, b: seq<nat>, rest: seq<nat>)
    requires Trail(sh, look, root, a) && Trail(sh, look, root, b + rest)
    requires Walk(sh, look, root, a) == Walk(sh, look, root, b)
    ensures Trail(sh, look, root, a + rest)
    ensures Walk(sh, look, root, a + rest) == Walk(sh, look, root, b + rest)
    decreases |rest|
  {
    if rest == [] {
      assert a + rest == a && b + rest == b;
    } else {
      var init, last := rest[..|rest| - 1], rest[|rest| - 1];
      assert (b + rest)[..|b + rest| - 1] == b + init && (a + rest)[..|a + rest| - 1] == a + init;
      Splice(sh, look, root, a, b, init);
    }
  }

  /** The buckets of a shortest path to an empty slot are pairwise distinct. */
  lemma BucketsDistinct(sh: Shape, look: Slots, root: nat, slots: seq<nat>, empty: nat, i: nat, j: nat)
    requires Trail(sh, look, root, slots) && NoneCloser(sh, look, |slots|)
    requires empty < sh.width && look(Walk(sh, look, root, slots), empty) == EMPTY
    requires i < j <= |slots|
    ensures Walk(sh, look, root, slots[..i]) != Walk(sh, look, root, slots[..j])
  {
    assert !Full(sh, look, Walk(sh, look, root, slots));
    if Walk(sh, look, root, slots[..i]) == Walk(sh, look, root, slots[..j]) { Shortened(sh, look, root, slots, i, j); }
  }

  lemma Shortened(sh: Shape, look: Slots, root: nat, slots: seq<nat>, i: nat, j: nat)
    requires Trail(sh, look, root, slots) && i < j <= |slots|
    requires Walk(sh, look, root, slots[..i]) == Walk(sh, look, root, slots[..j])
    ensures var short := slots[..i] + slots[j..];
            && |short| < |slots| && Trail(sh, look, root, short)
            && Walk(sh, look, root, short) == Walk(sh, look, root, slots)
  {
    TrailPrefix(sh, look, root, slots, i);
    assert slots[..j] + slots[j..] == slots;
    Splice(sh, look, root, slots[..i], slots[..j], slots[j..]);
  }
}
