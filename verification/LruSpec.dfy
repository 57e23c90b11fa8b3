/** The block cache as a value: keyed slots and a recency list, most recent first.

    The recency list is proved to behave like time stamps: over every sequence of operations
    it evicts exactly the clean key that was touched longest ago. */
module LruSpec {
  import opened Blocks
  import opened FiniteSets

  datatype CacheKey = CacheKey(linkId: string, index: int)

  /** A channel nobody sends on; waiters are woken by closing it. */
  type Chan = nat

  datatype FetchError = FetchFailed

  datatype SlotView = Fetching | Clean(data: Bytes)

  datatype Lru = Lru(slots: map<CacheKey, SlotView>, order: seq<CacheKey>, cap: int)

  predicate IsClean(slots: map<CacheKey, SlotView>, k: CacheKey) {
    k in slots && slots[k].Clean?
  }

  predicate Distinct(order: seq<CacheKey>) {
    order == [] || (order[0] !in order[1..] && Distinct(order[1..]))
  }

  /** The recency list holds exactly the clean keys, each once. */
  ghost predicate Consistent(l: Lru) {
    Distinct(l.order) && forall k :: k in l.order <==> IsClean(l.slots, k)
  }

  function Without(order: seq<CacheKey>, k: CacheKey): seq<CacheKey> {
    if order == [] then []
    else if order[0] == k then Without(order[1..], k)
    else [order[0]] + Without(order[1..], k)
  }

  lemma {:induction false} WithoutMembers(order: seq<CacheKey>, k: CacheKey)
    ensures forall x :: x in Without(order, k) <==> x in order && x != k
    ensures k !in order ==> Without(order, k) == order
  {
    if order != [] {
      WithoutMembers(order[1..], k);
      assert order == [order[0]] + order[1..];
    }
  }

  lemma {:induction false} WithoutDistinct(order: seq<CacheKey>, k: CacheKey)
    requires Distinct(order)
    ensures Distinct(Without(order, k))
  {
    if order != [] {
      WithoutDistinct(order[1..], k);
      WithoutMembers(order[1..], k);
      if order[0] != k { DistinctCons(order[0], Without(order[1..], k)); }
    }
  }

  lemma DistinctCons(k: CacheKey, order: seq<CacheKey>)
    requires Distinct(order) && k !in order
    ensures Distinct([k] + order)
  {
    assert ([k] + order)[1..] == order;
  }

  lemma {:induction false} DistinctInit(order: seq<CacheKey>)
    requires Distinct(order) && order != []
    ensures Distinct(order[..|order| - 1]) && order[|order| - 1] !in order[..|order| - 1]
  {
    if |order| > 1 {
      var rest := order[1..];
      DistinctInit(rest);
      assert order[..|order| - 1] == [order[0]] + rest[..|rest| - 1];
      assert order[|order| - 1] == rest[|rest| - 1] && rest[|rest| - 1] in rest;
      DistinctCons(order[0], rest[..|rest| - 1]);
    }
  }

  // ----- operations -----

  datatype Out = Hit(data: Bytes) | Wait | Miss | Reserved(ok: bool) | Done

  function Touch(l: Lru, k: CacheKey): Lru {
    l.(order := [k] + Without(l.order, k))
  }

  /** Removes the key at the back of the recency list, if there is one. */
  function Evict(l: Lru): Lru {
    if l.order == [] then l
    else Lru(l.slots - {l.order[|l.order| - 1]}, l.order[..|l.order| - 1], l.cap)
  }

  function Get(l: Lru, k: CacheKey): (Lru, Out) {
    if k !in l.slots then (l, Miss)
    else
      match l.slots[k]
      case Fetching => (l, Wait)
      case Clean(data) => (Touch(l, k), Hit(data))
  }

  /** Makes room for a new slot. */
  function Room(l: Lru): Lru {
    if |l.slots| >= l.cap then Evict(l) else l
  }

  function Put(l: Lru, k: CacheKey, data: Bytes): Lru {
    if k in l.slots then Touch(l.(slots := l.slots[k := Clean(data)]), k)
    else
      var r := Room(l);
      Lru(r.slots[k := Clean(data)], [k] + r.order, l.cap)
  }

  /** The slot is dropped; nothing is taken off the recency list. */
  function PutError(l: Lru, k: CacheKey): Lru {
    l.(slots := l.slots - {k})
  }

  function Reserve(l: Lru, k: CacheKey): (Lru, bool) {
    if k in l.slots then (l, false)
    else if |l.slots| >= l.cap && l.order == [] then (l, false)
    else
      var r := Room(l);
      (r.(slots := r.slots[k := Fetching]), true)
  }

  function WithoutLink(order: seq<CacheKey>, link: string): seq<CacheKey> {
    if order == [] then []
    else if order[0].linkId == link then WithoutLink(order[1..], link)
    else [order[0]] + WithoutLink(order[1..], link)
  }

  function Invalidate(l: Lru, link: string): Lru {
    Lru(map k | k in l.slots && k.linkId != link :: l.slots[k], WithoutLink(l.order, link), l.cap)
  }

  lemma {:induction false} WithoutLinkMembers(order: seq<CacheKey>, link: string)
    ensures forall x :: x in WithoutLink(order, link) <==> x in order && x.linkId != link
  {
    if order != [] {
      WithoutLinkMembers(order[1..], link);
      assert order == [order[0]] + order[1..];
    }
  }

  datatype Op =
    | GetOp(k: CacheKey)
    | PutOp(k: CacheKey, data: Bytes)
    | PutErrorOp(k: CacheKey)
    | ReserveOp(k: CacheKey)
    | InvalidateOp(link: string)

  function Apply(l: Lru, op: Op): (Lru, Out) {
    match op
    case GetOp(k) => Get(l, k)
    case PutOp(k, data) => (Put(l, k, data), Done)
    case PutErrorOp(k) => (PutError(l, k), Done)
    case ReserveOp(k) => var (l', ok) := Reserve(l, k); (l', Reserved(ok))
    case InvalidateOp(link) => (Invalidate(l, link), Done)
  }

  /** An error may be recorded only for a slot that is absent or being fetched. */
  predicate Legal(l: Lru, op: Op) {
    op.PutErrorOp? ==> !IsClean(l.slots, op.k)
  }

  // ----- consistency, capacity, and what is never evicted -----

  lemma EvictSize(l: Lru, victim: CacheKey)
    requires victim in l.slots
    ensures (l.slots - {victim}).Keys == l.slots.Keys - {victim} && |l.slots - {victim}| == |l.slots| - 1
  {
    assert (l.slots - {victim}).Keys == l.slots.Keys - {victim};
    assert |l.slots.Keys - {victim}| == |l.slots.Keys| - 1;
  }

  lemma EvictKeeps(l: Lru)
    requires Consistent(l)
    ensures Consistent(Evict(l))
    ensures forall k | k in l.slots && l.slots[k].Fetching? :: k in Evict(l).slots && Evict(l).slots[k].Fetching?
    ensures |Evict(l).slots| == if l.order == [] then |l.slots| else |l.slots| - 1
    ensures Evict(l).slots.Keys <= l.slots.Keys
  {
    if l.order != [] {
      var init, victim := l.order[..|l.order| - 1], l.order[|l.order| - 1];
      assert victim in l.order && IsClean(l.slots, victim);
      assert l.order == init + [victim];
      DistinctInit(l.order);
      EvictSize(l, victim);
      forall k ensures k in init <==> IsClean(Evict(l).slots, k) {
        assert k in l.order <==> k in init || k == victim;
      }
    }
  }

  lemma RoomKeeps(l: Lru)
    requires Consistent(l)
    ensures Consistent(Room(l)) && Room(l).slots.Keys <= l.slots.Keys
  {
    EvictKeeps(l);
  }

  lemma TouchKeeps(l: Lru, k: CacheKey)
    requires Distinct(l.order) && IsClean(l.slots, k)
    requires forall x | x != k :: x in l.order <==> IsClean(l.slots, x)
    ensures Consistent(Touch(l, k))
  {
    WithoutMembers(l.order, k);
    WithoutDistinct(l.order, k);
    DistinctCons(k, Without(l.order, k));
  }

  lemma PutKeeps(l: Lru, k: CacheKey, data: Bytes)
    requires Consistent(l)
    ensures Consistent(Put(l, k, data))
  {
    if k in l.slots {
      TouchKeeps(l.(slots := l.slots[k := Clean(data)]), k);
    } else {
      RoomKeeps(l);
      var r := Room(l);
      assert k !in r.order;
      DistinctCons(k, r.order);
    }
  }

  lemma ReserveKeeps(l: Lru, k: CacheKey)
    requires Consistent(l)
    ensures Consistent(Reserve(l, k).0)
  {
    RoomKeeps(l);
  }

  lemma InvalidateKeeps(l: Lru, link: string)
    requires Consistent(l)
    ensures Consistent(Invalidate(l, link))
  {
    WithoutLinkMembers(l.order, link);
    WithoutLinkDistinct(l.order, link);
  }

  lemma ApplyKeepsConsistent(l: Lru, op: Op)
    requires Consistent(l) && Legal(l, op)
    ensures Consistent(Apply(l, op).0)
  {
    match op
    case GetOp(k) => if IsClean(l.slots, k) { TouchKeeps(l, k); }
    case PutOp(k, data) => PutKeeps(l, k, data);
    case PutErrorOp(k) =>
    case ReserveOp(k) => ReserveKeeps(l, k);
    case InvalidateOp(link) => InvalidateKeeps(l, link);
  }

  lemma {:induction false} WithoutLinkDistinct(order: seq<CacheKey>, link: string)
    requires Distinct(order)
    ensures Distinct(WithoutLink(order, link))
  {
    if order != [] {
      WithoutLinkDistinct(order[1..], link);
      WithoutLinkMembers(order[1..], link);
      if order[0].linkId != link { DistinctCons(order[0], WithoutLink(order[1..], link)); }
    }
  }

  /** The one operation that can grow the cache past its capacity is putting an absent key
      while the cache is full and every slot is being fetched; it then grows by one. */
  lemma Capacity(l: Lru, op: Op)
    requires Consistent(l) && Legal(l, op)
    ensures var full := op.PutOp? && op.k !in l.slots && l.order == [] && |l.slots| >= l.cap;
            if full then |Apply(l, op).0.slots| == |l.slots| + 1
            else |Apply(l, op).0.slots| <= Max(|l.slots|, l.cap)
  {
    EvictKeeps(l);
    match op
    case InvalidateOp(link) => MapShrinks(l.slots, Invalidate(l, link).slots);
    case PutErrorOp(k) => MapShrinks(l.slots, PutError(l, k).slots);
    case _ =>
  }

  lemma MapShrinks(m: map<CacheKey, SlotView>, m': map<CacheKey, SlotView>)
    requires m'.Keys <= m.Keys
    ensures |m'| <= |m|
  {
    SubsetSize(m'.Keys, m.Keys);
  }

  /** A slot being fetched leaves the cache only by being put, failing, or being invalidated. */
  lemma FetchingStays(l: Lru, op: Op, k: CacheKey)
    requires Consistent(l) && Legal(l, op) && k in l.slots && l.slots[k].Fetching?
    requires !((op.PutOp? || op.PutErrorOp?) && op.k == k)
    requires !(op.InvalidateOp? && op.link == k.linkId)
    ensures k in Apply(l, op).0.slots && Apply(l, op).0.slots[k].Fetching?
  {
    EvictKeeps(l);
  }

  /** The key an operation is about; an invalidation is about no single key. */
  predicate About(op: Op, k: CacheKey) {
    !op.InvalidateOp? && op.k == k
  }

  /** What an operation does to each slot: a put stores its data under its key, a reservation
      that succeeds starts a fetch, a failed fetch and an invalidation drop, and no slot of
      another key changes its contents. */
  lemma Slots(l: Lru, op: Op, k: CacheKey)
    ensures var (l', out) := Apply(l, op);
            && (op.PutOp? && op.k == k ==> k in l'.slots && l'.slots[k] == Clean(op.data))
            && (op == ReserveOp(k) && out == Reserved(true) ==> k !in l.slots && k in l'.slots && l'.slots[k] == Fetching)
            && (op == PutErrorOp(k) || op == InvalidateOp(k.linkId) ==> k !in l'.slots)
            && (!About(op, k) && k in l'.slots ==> k in l.slots && l'.slots[k] == l.slots[k])
            && (op == GetOp(k) ==> l'.slots == l.slots)
            && (out == Reserved(false) ==> l' == l)
  {
  }

  /** Getting or putting a block makes it the most recent one; reserving and failing leave the
      others in their order, but for the one evicted at the end. */
  lemma Recency(l: Lru, op: Op, k: CacheKey)
    ensures var order := Apply(l, op).0.order;
            && (op.PutOp? && op.k == k ==> order != [] && order[0] == k)
            && (op == GetOp(k) && IsClean(l.slots, k) ==> order != [] && order[0] == k)
            && (op == GetOp(k) && !IsClean(l.slots, k) ==> order == l.order)
            && (op.ReserveOp? || op.PutErrorOp? ==> order <= l.order && |order| + 1 >= |l.order|)
            && (op.PutOp? && op.k !in l.slots ==> order[1..] <= l.order && |order| >= |l.order|)
  {
  }

  // ----- the recency list behaves like time stamps -----

  /** The same cache with the time of the last touch of every clean key. */
  datatype Timed = Timed(slots: map<CacheKey, SlotView>, touched: map<CacheKey, nat>, clock: nat, cap: int)

  ghost predicate IsOldest(t: Timed, k: CacheKey) {
    k in t.touched && forall x | x in t.touched :: t.touched[k] <= t.touched[x]
  }

  ghost function TimedEvict(t: Timed): Timed {
    if exists k :: IsOldest(t, k) then
      var k :| IsOldest(t, k);
      t.(slots := t.slots - {k}, touched := t.touched - {k})
    else t
  }

  ghost function TimedTouch(t: Timed, k: CacheKey): Timed {
    t.(touched := t.touched[k := t.clock], clock := t.clock + 1)
  }

  ghost function TimedRoom(t: Timed): Timed {
    if |t.slots| >= t.cap then TimedEvict(t) else t
  }

  ghost function TimedApply(t: Timed, op: Op): (Timed, Out) {
    match op
    case GetOp(k) =>
      if k !in t.slots then (t, Miss)
      else (match t.slots[k] { case Fetching => (t, Wait) case Clean(data) => (TimedTouch(t, k), Hit(data)) })
    case PutOp(k, data) =>
      var r := if k in t.slots then t else TimedRoom(t);
      (TimedTouch(r.(slots := r.slots[k := Clean(data)]), k), Done)
    case PutErrorOp(k) => (t.(slots := t.slots - {k}), Done)
    case ReserveOp(k) =>
      if k in t.slots || (|t.slots| >= t.cap && t.touched == map[]) then (t, Reserved(false))
      else
        var r := TimedRoom(t);
        (r.(slots := r.slots[k := Fetching]), Reserved(true))
    case InvalidateOp(link) =>
      (t.(slots := map k | k in t.slots && k.linkId != link :: t.slots[k],
          touched := map k | k in t.touched && k.linkId != link :: t.touched[k]), Done)
  }

  /** Every key was touched after all keys behind it. */
  predicate Descending(order: seq<CacheKey>, touched: map<CacheKey, nat>) {
    order == [] ||
    (&& order[0] in touched
     && (forall x | x in order[1..] :: x in touched && touched[order[0]] > touched[x])
     && Descending(order[1..], touched))
  }

  /** The list order is the order of the time stamps, newest first. */
  ghost predicate Agrees(l: Lru, t: Timed) {
    && l.slots == t.slots && l.cap == t.cap
    && (forall k :: k in l.order <==> k in t.touched)
    && Descending(l.order, t.touched)
    && (forall k | k in t.touched :: t.touched[k] < t.clock)
  }

  lemma {:induction false} DescendingInit(order: seq<CacheKey>, touched: map<CacheKey, nat>)
    requires Descending(order, touched) && order != []
    ensures var init, last := order[..|order| - 1], order[|order| - 1];
            && last in touched && last !in init && Descending(init, touched - {last})
            && forall x | x in init :: x in touched && touched[x] > touched[last]
  {
    var init, last := order[..|order| - 1], order[|order| - 1];
    if |order| > 1 {
      var rest := order[1..];
      DescendingInit(rest, touched);
      assert init == [order[0]] + rest[..|rest| - 1] && last == rest[|rest| - 1];
      assert last in rest;
      assert rest == rest[..|rest| - 1] + [last];
      assert init[1..] == rest[..|rest| - 1];
    }
  }

  lemma {:induction false} DescendingExtend(order: seq<CacheKey>, touched: map<CacheKey, nat>, touched': map<CacheKey, nat>)
    requires Descending(order, touched)
    requires forall x | x in order :: x in touched ==> x in touched' && touched'[x] == touched[x]
    ensures Descending(order, touched')
  {
    if order != [] {
      assert order[0] in order;
      assert forall x | x in order[1..] :: x in order;
      DescendingExtend(order[1..], touched, touched');
    }
  }

  lemma {:induction false} WithoutDescending(order: seq<CacheKey>, k: CacheKey, touched: map<CacheKey, nat>)
    requires Descending(order, touched)
    ensures Descending(Without(order, k), touched)
  {
    if order != [] {
      WithoutDescending(order[1..], k, touched);
      WithoutMembers(order[1..], k);
      var w := Without(order[1..], k);
      assert ([order[0]] + w)[1..] == w;
    }
  }

  lemma {:induction false} WithoutLinkDescending(order: seq<CacheKey>, link: string, touched: map<CacheKey, nat>)
    requires Descending(order, touched)
    ensures Descending(WithoutLink(order, link), touched)
  {
    if order != [] {
      WithoutLinkDescending(order[1..], link, touched);
      WithoutLinkMembers(order[1..], link);
      var w := WithoutLink(order[1..], link);
      assert ([order[0]] + w)[1..] == w;
    }
  }

  lemma TheOldest(t: Timed, victim: CacheKey)
    requires victim in t.touched
    requires forall x | x in t.touched && x != victim :: t.touched[x] > t.touched[victim]
    ensures TimedEvict(t) == t.(slots := t.slots - {victim}, touched := t.touched - {victim})
  {
    assert IsOldest(t, victim);
    assert forall k | IsOldest(t, k) :: k == victim;
  }

  lemma LastIsOldest(order: seq<CacheKey>, touched: map<CacheKey, nat>)
    requires Descending(order, touched) && order != [] && forall k :: k in order <==> k in touched
    ensures var victim := order[|order| - 1];
            victim in touched && forall x | x in touched && x != victim :: touched[x] > touched[victim]
  {
    DescendingInit(order, touched);
    assert order == order[..|order| - 1] + [order[|order| - 1]];
    forall x | x in touched && x != order[|order| - 1] ensures touched[x] > touched[order[|order| - 1]] {
      assert x in order;
    }
  }

  lemma VictimAgrees(l: Lru, t: Timed, victim: CacheKey)
    requires Agrees(l, t) && l.order != [] && victim == l.order[|l.order| - 1]
    ensures Agrees(Evict(l), t.(slots := t.slots - {victim}, touched := t.touched - {victim}))
  {
    var init := l.order[..|l.order| - 1];
    DescendingInit(l.order, t.touched);
    assert l.order == init + [victim];
    forall k ensures k in init <==> k in t.touched - {victim} {
      assert k in l.order <==> k in init || k == victim;
    }
  }

  lemma EvictAgrees(l: Lru, t: Timed)
    requires Agrees(l, t)
    ensures Agrees(Evict(l), TimedEvict(t))
  {
    if l.order == [] {
      assert forall k :: !IsOldest(t, k);
    } else {
      var victim := l.order[|l.order| - 1];
      LastIsOldest(l.order, t.touched);
      TheOldest(t, victim);
      VictimAgrees(l, t, victim);
    }
  }

  lemma TouchAgrees(l: Lru, t: Timed, k: CacheKey, slots: map<CacheKey, SlotView>)
    requires Agrees(l, t)
    ensures Agrees(Touch(l.(slots := slots), k), TimedTouch(t.(slots := slots), k))
  {
    var w := Without(l.order, k);
    WithoutMembers(l.order, k);
    WithoutDescending(l.order, k, t.touched);
    var touched := t.touched[k := t.clock];
    DescendingExtend(w, t.touched, touched);
    assert ([k] + w)[1..] == w;
  }

  lemma RoomAgrees(l: Lru, t: Timed)
    requires Agrees(l, t)
    ensures Agrees(Room(l), TimedRoom(t))
  {
    EvictAgrees(l, t);
  }

  lemma PutAgrees(l: Lru, t: Timed, k: CacheKey, data: Bytes)
    requires Consistent(l) && Agrees(l, t)
    ensures Agrees(Put(l, k, data), TimedApply(t, PutOp(k, data)).0)
  {
    if k in l.slots {
      TouchAgrees(l, t, k, l.slots[k := Clean(data)]);
    } else {
      RoomKeeps(l);
      RoomAgrees(l, t);
      var r := Room(l);
      WithoutMembers(r.order, k);
      TouchAgrees(r, TimedRoom(t), k, r.slots[k := Clean(data)]);
    }
  }

  lemma ReserveAgrees(l: Lru, t: Timed, k: CacheKey)
    requires Consistent(l) && Agrees(l, t)
    ensures Apply(l, ReserveOp(k)).1 == TimedApply(t, ReserveOp(k)).1
    ensures Agrees(Apply(l, ReserveOp(k)).0, TimedApply(t, ReserveOp(k)).0)
  {
    RoomAgrees(l, t);
    if l.order == [] {
      assert t.touched.Keys == {};
    } else {
      assert l.order[0] in l.order;
    }
  }

  lemma InvalidateAgrees(l: Lru, t: Timed, link: string)
    requires Agrees(l, t)
    ensures Agrees(Invalidate(l, link), TimedApply(t, InvalidateOp(link)).0)
  {
    WithoutLinkMembers(l.order, link);
    WithoutLinkDescending(l.order, link, t.touched);
    var touched := map k | k in t.touched && k.linkId != link :: t.touched[k];
    DescendingExtend(WithoutLink(l.order, link), t.touched, touched);
  }

  /** Each operation gives the same answer and keeps the agreement. */
  lemma ApplyAgrees(l: Lru, t: Timed, op: Op)
    requires Consistent(l) && Agrees(l, t) && Legal(l, op)
    ensures Apply(l, op).1 == TimedApply(t, op).1
    ensures Agrees(Apply(l, op).0, TimedApply(t, op).0)
  {
    match op
    case GetOp(k) =>
      TouchAgrees(l, t, k, l.slots);
      assert l.(slots := l.slots) == l && t.(slots := t.slots) == t;
    case PutOp(k, data) => PutAgrees(l, t, k, data);
    case PutErrorOp(k) =>
    case ReserveOp(k) => ReserveAgrees(l, t, k);
    case InvalidateOp(link) => InvalidateAgrees(l, t, link);
  }

  // ----- whole runs -----

  function Run(cap: int, ops: seq<Op>): Lru {
    if ops == [] then Lru(map[], [], cap) else Apply(Run(cap, ops[..|ops| - 1]), ops[|ops| - 1]).0
  }

  ghost function TimedRun(cap: int, ops: seq<Op>): Timed {
    if ops == [] then Timed(map[], map[], 0, cap) else TimedApply(TimedRun(cap, ops[..|ops| - 1]), ops[|ops| - 1]).0
  }

  ghost predicate LegalRun(cap: int, ops: seq<Op>) {
    forall i | 0 <= i < |ops| :: Legal(Run(cap, ops[..i]), ops[i])
  }

  /** Over every legal sequence of operations the cache stays consistent and answers like the
      time-stamped cache, which evicts the key touched longest ago. */
  lemma {:induction false} RunsAgree(cap: int, ops: seq<Op>)
    requires LegalRun(cap, ops)
    ensures Consistent(Run(cap, ops))
    ensures Agrees(Run(cap, ops), TimedRun(cap, ops))
    ensures forall op | Legal(Run(cap, ops), op) ::
              Apply(Run(cap, ops), op).1 == TimedApply(TimedRun(cap, ops), op).1
  {
    if ops != [] {
      var init, last := ops[..|ops| - 1], ops[|ops| - 1];
      assert LegalRun(cap, init) by {
        forall i | 0 <= i < |init| ensures Legal(Run(cap, init[..i]), init[i]) {
          assert init[..i] == ops[..i];
        }
      }
      RunsAgree(cap, init);
      assert ops[..|ops| - 1] == init;
      ApplyKeepsConsistent(Run(cap, init), last);
      ApplyAgrees(Run(cap, init), TimedRun(cap, init), last);
    }
    forall op | Legal(Run(cap, ops), op)
      ensures Apply(Run(cap, ops), op).1 == TimedApply(TimedRun(cap, ops), op).1
    {
      ApplyAgrees(Run(cap, ops), TimedRun(cap, ops), op);
    }
  }

  /** Recording an error for a clean slot leaves its key on the recency list; the cache is
      then inconsistent. */
  lemma ErrorOnCleanSlot(l: Lru, k: CacheKey)
    requires Consistent(l)
    ensures Consistent(PutError(l, k)) <==> !IsClean(l.slots, k)
  {
    if IsClean(l.slots, k) {
      assert k in PutError(l, k).order && !IsClean(PutError(l, k).slots, k);
    }
  }
  /** Invalidating a link in the middle of a fetch leads there: the slot of the failing fetch is
      gone, and its error hits the block another caller fetched since. */
  lemma ErrorAfterInvalidate(cap: int, k: CacheKey, data: Bytes)
    requires cap > 0
    ensures var before := Run(cap, [ReserveOp(k), InvalidateOp(k.linkId), ReserveOp(k), PutOp(k, data)]);
            Consistent(before) && !Consistent(PutError(before, k))
  {
    var ops := [ReserveOp(k), InvalidateOp(k.linkId), ReserveOp(k), PutOp(k, data)];
    var l1 := Lru(map[k := Fetching], [], cap);
    var l2 := Lru(map[], [], cap);
    var l4 := Lru(map[k := Clean(data)], [k], cap);
    assert Run(cap, ops[..1]) == l1 by { assert ops[..1][..0] == []; }
    assert Run(cap, ops[..2]) == l2 by { assert ops[..2][..1] == ops[..1]; assert Invalidate(l1, k.linkId) == l2; }
    assert Run(cap, ops[..3]) == l1 by { assert ops[..3][..2] == ops[..2]; }
    assert Run(cap, ops) == l4 by { assert ops[..3] == ops[..|ops| - 1]; assert Put(l1, k, data) == l4; }
    ErrorOnCleanSlot(l4, k);
  }
}
