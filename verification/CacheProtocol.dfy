/** Readers and prefetchers sharing one block cache, as interleaved steps.

    A step is what one goroutine does while it holds the cache's mutex once, or one fetch.  The
    cache operations are those of LruSpec; this module adds the ready channels and the
    goroutines.  A schedule may interleave the steps, and fail the fetches, in any way. */
module CacheProtocol {
  import opened Blocks
  import opened LruSpec
  import opened Outcomes

  /** What the mutex guards: the cache, and the ready channel of every slot. */
  datatype Table = Table(cache: Lru, ready: map<CacheKey, Chan>, closed: set<Chan>, next: Chan)

  datatype Pc =
    | Looking                                    // before the first Get
    | Parked(first: bool, ch: Chan)              // inside the first or the second Get
    | Reserving                                  // before Reserve
    | LookingAgain                               // before the second Get
    | Owning(ch: Chan)                           // holds the slot, fetching
    | Fetched(ch: Chan, got: Option<Bytes>)      // before Put or PutError
    | FetchingAlone                              // fetching without a slot
    | Returned(result: Result<Bytes, FetchError>)
    | Ended                                      // a prefetcher that has nothing to do

  datatype Thread = Thread(key: CacheKey, reader: bool, pc: Pc)

  datatype State = State(table: Table, threads: seq<Thread>)

  // ----- the cache operations with their channels -----

  function Shared(t: Table, cache: Lru): Table {
    t.(cache := cache, ready := map k | k in t.ready && k in cache.slots :: t.ready[k])
  }

  /** The second half of Get: a slot that is being fetched anew counts as a miss. */
  function Resume(l: Lru, k: CacheKey): (Lru, Out) {
    var (l', out) := Get(l, k);
    (l', if out.Wait? then Miss else out)
  }

  function WithSlot(t: Table, l: Lru, k: CacheKey): Table {
    var r := Shared(t, l);
    r.(ready := r.ready[k := t.next], next := t.next + 1)
  }

  function Reserved(t: Table, k: CacheKey): Table {
    WithSlot(t, LruSpec.Reserve(t.cache, k).0, k)
  }

  function Stored(t: Table, k: CacheKey, data: Bytes): Table {
    var r := Shared(t, LruSpec.Put(t.cache, k, data));
    if k in t.ready then r.(closed := t.closed + {t.ready[k]})
    else r.(ready := r.ready[k := t.next], closed := t.closed + {t.next}, next := t.next + 1)
  }

  function Dropped(t: Table, k: CacheKey): Table {
    var r := Shared(t, LruSpec.PutError(t.cache, k));
    if k in t.ready then r.(closed := t.closed + {t.ready[k]}) else r
  }

  // ----- one step of one goroutine -----

  /** Where a reader goes after Get answered. */
  function AfterGet(out: Out, ready: Chan, first: bool): Pc {
    match out
    case Hit(data) => Returned(Ok(data))
    case Wait => Parked(first, ready)
    case _ => if first then Reserving else FetchingAlone
  }

  function ReadyOf(t: Table, k: CacheKey): Chan {
    if k in t.ready then t.ready[k] else t.next
  }

  /** A goroutine can move unless it is done or its channel is still open. */
  predicate Enabled(t: Table, th: Thread) {
    match th.pc
    case Parked(_, ch) => ch in t.closed
    case Returned(_) => false
    case Ended => false
    case _ => true
  }

  function GetStep(t: Table, th: Thread, first: bool): (Table, Thread) {
    var (l, out) := Get(t.cache, th.key);
    (t.(cache := l), th.(pc := AfterGet(out, ReadyOf(t, th.key), first)))
  }

  function ResumeStep(t: Table, th: Thread, first: bool): (Table, Thread) {
    var (l, out) := Resume(t.cache, th.key);
    (t.(cache := l), th.(pc := AfterGet(out, 0, first)))
  }

  function ReserveStep(t: Table, th: Thread): (Table, Thread) {
    if LruSpec.Reserve(t.cache, th.key).1 then
      (Reserved(t, th.key), th.(pc := Owning(t.next)))
    else
      (t, th.(pc := if th.reader then LookingAgain else Ended))
  }

  function PutStep(t: Table, th: Thread, got: Option<Bytes>): (Table, Thread) {
    match got
    case Some(data) => (Stored(t, th.key, data), th.(pc := Returned(Ok(data))))
    case None => (Dropped(t, th.key), th.(pc := Returned(Err(FetchFailed))))
  }

  /** store is what fetching a key yields when the fetch succeeds. */
  function ThreadStep(t: Table, th: Thread, store: CacheKey -> Bytes, fetchOk: bool): (Table, Thread)
    requires Enabled(t, th)
  {
    match th.pc
    case Looking => GetStep(t, th, true)
    case LookingAgain => GetStep(t, th, false)
    case Parked(first, _) => ResumeStep(t, th, first)
    case Reserving => ReserveStep(t, th)
    case Owning(ch) => (t, th.(pc := Fetched(ch, if fetchOk then Some(store(th.key)) else None)))
    case Fetched(_, got) => PutStep(t, th, got)
    case FetchingAlone => (t, th.(pc := Returned(if fetchOk then Ok(store(th.key)) else Err(FetchFailed))))
  }

  predicate CanStep(s: State, i: nat) {
    i < |s.threads| && Enabled(s.table, s.threads[i])
  }

  function Step(s: State, i: nat, store: CacheKey -> Bytes, fetchOk: bool): State
    requires CanStep(s, i)
  {
    var (t, th) := ThreadStep(s.table, s.threads[i], store, fetchOk);
    State(t, s.threads[i := th])
  }

  /** A schedule: which goroutine moves, and whether its fetch succeeds if it is fetching. */
  datatype Move = Move(thread: nat, fetchOk: bool)

  predicate Start(s: State, cap: nat) {
    && s.table == Table(Lru(map[], [], cap), map[], {}, 0)
    && forall th | th in s.threads :: th.pc == if th.reader then Looking else Reserving
  }

  /** The state after a schedule, or None when it moves a goroutine that cannot move. */
  function Run(s: State, store: CacheKey -> Bytes, moves: seq<Move>): Option<State> {
    if moves == [] then Some(s)
    else
      match Run(s, store, moves[..|moves| - 1])
      case None => None
      case Some(s') =>
        var m := moves[|moves| - 1];
        if CanStep(s', m.thread) then Some(Step(s', m.thread, store, m.fetchOk)) else None
  }

  // ----- the invariant -----

  predicate Fetches(t: Table, k: CacheKey) {
    k in t.cache.slots && t.cache.slots[k].Fetching?
  }

  /** A goroutine owns the slot of its key from Reserve to Put or PutError. */
  predicate Owns(th: Thread) {
    th.pc.Owning? || th.pc.Fetched?
  }

  /** Every slot has a channel of its own, closed exactly when the slot is clean, and clean slots
      hold what the store has. */
  ghost predicate ReadyOk(slots: map<CacheKey, SlotView>, ready: map<CacheKey, Chan>, closed: set<Chan>, next: Chan,
                          store: CacheKey -> Bytes) {
    && ready.Keys == slots.Keys
    && (forall c | c in closed :: c < next)
    && (forall k | k in ready :: ready[k] < next)
    && (forall k, k' | k in ready && k' in ready && ready[k] == ready[k'] :: k == k')
    && (forall k | k in slots :: slots[k].Clean? ==> slots[k].data == store(k))
    && (forall k | k in slots :: slots[k].Clean? <==> ready[k] in closed)
  }

  ghost predicate TableOk(t: Table, store: CacheKey -> Bytes) {
    && Consistent(t.cache)
    && |t.cache.slots| <= Max(t.cache.cap, 0)
    && ReadyOk(t.cache.slots, t.ready, t.closed, t.next, store)
  }

  ghost predicate ThreadOk(t: Table, th: Thread, store: CacheKey -> Bytes) {
    match th.pc
    case Parked(_, ch) => ch in t.closed || (Fetches(t, th.key) && th.key in t.ready && t.ready[th.key] == ch)
    case Owning(ch) => Fetches(t, th.key) && th.key in t.ready && t.ready[th.key] == ch
    case Fetched(ch, got) =>
      && Fetches(t, th.key) && th.key in t.ready && t.ready[th.key] == ch
      && (got.Some? ==> got.value == store(th.key))
    case Returned(r) => r.Ok? ==> r.value == store(th.key)
    case _ => true
  }

  ghost predicate ThreadsOk(t: Table, threads: seq<Thread>, store: CacheKey -> Bytes) {
    forall i | 0 <= i < |threads| :: ThreadOk(t, threads[i], store)
  }

  ghost predicate OneOwner(threads: seq<Thread>) {
    forall i, j | 0 <= i < |threads| && 0 <= j < |threads| && Owns(threads[i]) && Owns(threads[j])
                  && threads[i].key == threads[j].key :: i == j
  }

  ghost predicate HasOwner(threads: seq<Thread>, k: CacheKey) {
    exists i :: 0 <= i < |threads| && Owns(threads[i]) && threads[i].key == k
  }

  ghost predicate Inv(s: State, store: CacheKey -> Bytes) {
    && TableOk(s.table, store)
    && ThreadsOk(s.table, s.threads, store)
    && OneOwner(s.threads)
    && (forall k | Fetches(s.table, k) :: HasOwner(s.threads, k))
  }

  /** What a step for key k may do to the slots of the other keys and to the channels. */
  ghost predicate Follows(t: Table, t': Table, k: CacheKey) {
    && t.closed <= t'.closed
    && (forall x | x != k && Fetches(t, x) :: Fetches(t', x) && x in t.ready && x in t'.ready && t'.ready[x] == t.ready[x])
    && (forall x | x != k && Fetches(t', x) :: Fetches(t, x))
    && (Fetches(t, k) && k in t.ready ==>
          t.ready[k] in t'.closed || (Fetches(t', k) && k in t'.ready && t'.ready[k] == t.ready[k]))
  }

  // ----- each step keeps the table in order -----

  lemma GetKeeps(t: Table, k: CacheKey, store: CacheKey -> Bytes)
    requires TableOk(t, store)
    ensures var t' := t.(cache := Get(t.cache, k).0);
            TableOk(t', store) && Follows(t, t', k) && (Fetches(t', k) <==> Fetches(t, k))
  {
    ApplyKeepsConsistent(t.cache, GetOp(k));
  }

  /** Making a fetching slot removes at most clean slots and keeps the others as they are. */
  ghost predicate MakesSlot(l: Lru, l': Lru, k: CacheKey) {
    && Consistent(l') && l'.cap == l.cap && |l'.slots| <= Max(|l.slots|, l.cap)
    && k !in l.slots && k in l'.slots && l'.slots[k].Fetching?
    && (forall x | x in l'.slots && x != k :: x in l.slots && l'.slots[x] == l.slots[x])
    && (forall x | x in l.slots && l.slots[x].Fetching? :: x in l'.slots)
  }

  lemma ReserveMakesSlot(l: Lru, k: CacheKey)
    requires Consistent(l) && LruSpec.Reserve(l, k).1
    ensures MakesSlot(l, LruSpec.Reserve(l, k).0, k)
  {
    ReserveKeeps(l, k);
    EvictKeeps(l);
    Capacity(l, ReserveOp(k));
  }

  lemma NewSlotReady(slots: map<CacheKey, SlotView>, ready: map<CacheKey, Chan>, closed: set<Chan>, next: Chan,
                     store: CacheKey -> Bytes, k: CacheKey, slots': map<CacheKey, SlotView>, ready': map<CacheKey, Chan>)
    requires ReadyOk(slots, ready, closed, next, store) && k in slots' && slots'[k].Fetching?
    requires forall x | x in slots' && x != k :: x in slots && slots'[x] == slots[x]
    requires ready'.Keys == slots'.Keys && ready'[k] == next
    requires forall x | x in ready' && x != k :: x in ready && ready'[x] == ready[x]
    ensures ReadyOk(slots', ready', closed, next + 1, store)
  {
  }

  lemma NewSlotKeepsTable(t: Table, l: Lru, k: CacheKey, store: CacheKey -> Bytes)
    requires TableOk(t, store) && MakesSlot(t.cache, l, k)
    ensures TableOk(WithSlot(t, l, k), store)
  {
    NewSlotReady(t.cache.slots, t.ready, t.closed, t.next, store, k, l.slots, WithSlot(t, l, k).ready);
  }

  lemma NewSlotFollows(t: Table, l: Lru, k: CacheKey, store: CacheKey -> Bytes)
    requires TableOk(t, store) && MakesSlot(t.cache, l, k)
    ensures Follows(t, WithSlot(t, l, k), k)
    ensures !Fetches(t, k) && Fetches(WithSlot(t, l, k), k) && WithSlot(t, l, k).ready[k] == t.next
  {
  }

  lemma ReserveKeepsTable(t: Table, k: CacheKey, store: CacheKey -> Bytes)
    requires TableOk(t, store) && LruSpec.Reserve(t.cache, k).1
    ensures TableOk(Reserved(t, k), store) && Follows(t, Reserved(t, k), k)
    ensures !Fetches(t, k) && Fetches(Reserved(t, k), k) && Reserved(t, k).ready[k] == t.next
  {
    var l := LruSpec.Reserve(t.cache, k).0;
    ReserveMakesSlot(t.cache, k);
    NewSlotKeepsTable(t, l, k, store);
    NewSlotFollows(t, l, k, store);
  }

  lemma FilledReady(slots: map<CacheKey, SlotView>, ready: map<CacheKey, Chan>, closed: set<Chan>, next: Chan,
                    store: CacheKey -> Bytes, k: CacheKey)
    requires ReadyOk(slots, ready, closed, next, store) && k in slots
    ensures ReadyOk(slots[k := Clean(store(k))], ready, closed + {ready[k]}, next, store)
  {
  }

  lemma FilledSlotKeepsTable(t: Table, l: Lru, k: CacheKey, store: CacheKey -> Bytes)
    requires TableOk(t, store) && Fetches(t, k)
    requires Consistent(l) && l.cap == t.cache.cap && l.slots == t.cache.slots[k := Clean(store(k))]
    ensures var t' := Shared(t, l).(closed := t.closed + {t.ready[k]});
            TableOk(t', store) && Follows(t, t', k) && t.ready[k] in t'.closed && !Fetches(t', k)
  {
    assert l.slots.Keys == t.cache.slots.Keys;
    assert |l.slots| == |l.slots.Keys| && |t.cache.slots| == |t.cache.slots.Keys|;
    assert Shared(t, l).ready == t.ready;
    FilledReady(t.cache.slots, t.ready, t.closed, t.next, store, k);
  }

  lemma StoreKeepsTable(t: Table, k: CacheKey, store: CacheKey -> Bytes)
    requires TableOk(t, store) && Fetches(t, k)
    ensures var t' := Stored(t, k, store(k));
            TableOk(t', store) && Follows(t, t', k) && t.ready[k] in t'.closed && !Fetches(t', k)
  {
    PutKeeps(t.cache, k, store(k));
    FilledSlotKeepsTable(t, LruSpec.Put(t.cache, k, store(k)), k, store);
  }

  lemma DroppedReady(slots: map<CacheKey, SlotView>, ready: map<CacheKey, Chan>, closed: set<Chan>, next: Chan,
                     store: CacheKey -> Bytes, k: CacheKey)
    requires ReadyOk(slots, ready, closed, next, store) && k in slots
    ensures ReadyOk(slots - {k}, ready - {k}, closed + {ready[k]}, next, store)
  {
  }

  lemma DropKeepsTable(t: Table, k: CacheKey, store: CacheKey -> Bytes)
    requires TableOk(t, store) && Fetches(t, k)
    ensures var t' := Dropped(t, k);
            TableOk(t', store) && Follows(t, t', k) && t.ready[k] in t'.closed && !Fetches(t', k)
  {
    ApplyKeepsConsistent(t.cache, PutErrorOp(k));
    MapShrinks(t.cache.slots, t.cache.slots - {k});
    DroppedReady(t.cache.slots, t.ready, t.closed, t.next, store, k);
    assert Shared(t, LruSpec.PutError(t.cache, k)).ready == t.ready - {k};
  }

  // ----- each step keeps the invariant -----

  /** Another goroutine's knowledge survives the step, unless it owns the same key. */
  lemma OtherThread(t: Table, t': Table, k: CacheKey, th: Thread, store: CacheKey -> Bytes)
    requires TableOk(t, store) && ThreadOk(t, th, store) && Follows(t, t', k)
    requires Owns(th) ==> th.key != k
    ensures ThreadOk(t', th, store)
  {
  }

  /** What one step of a goroutine does to the table and to itself. */
  ghost predicate StepOk(t: Table, th: Thread, t': Table, th': Thread, store: CacheKey -> Bytes) {
    && th'.key == th.key
    && TableOk(t', store) && Follows(t, t', th.key) && ThreadOk(t', th', store)
    && (Fetches(t', th.key) && !Fetches(t, th.key) ==> Owns(th'))
    && (Owns(th) && !Owns(th') ==> !Fetches(t', th.key))
    && (Owns(th') ==> Owns(th) || !Fetches(t, th.key))
    && (Fetches(t, th.key) && th.key in t.ready && !Owns(th) ==>
          Fetches(t', th.key) && th.key in t'.ready && t'.ready[th.key] == t.ready[th.key])
    && Rank(th') < Rank(th)
  }

  /** An upper bound on the steps a goroutine still takes. */
  function Rank(th: Thread): nat {
    match th.pc
    case Looking => 6
    case Parked(first, _) => if first then 5 else 2
    case Reserving => 4
    case LookingAgain => 3
    case Owning(_) => 2
    case Fetched(_, _) => 1
    case FetchingAlone => 1
    case Returned(_) => 0
    case Ended => 0
  }

  lemma GetStepOk(t: Table, th: Thread, store: CacheKey -> Bytes, first: bool)
    requires TableOk(t, store) && th.pc == if first then Looking else LookingAgain
    ensures var (t', th') := GetStep(t, th, first); StepOk(t, th, t', th', store)
  {
    GetKeeps(t, th.key, store);
  }

  lemma ResumeStepOk(t: Table, th: Thread, store: CacheKey -> Bytes)
    requires TableOk(t, store) && th.pc.Parked? && ThreadOk(t, th, store) && Enabled(t, th)
    ensures var (t', th') := ResumeStep(t, th, th.pc.first); StepOk(t, th, t', th', store)
  {
    GetKeeps(t, th.key, store);
  }

  lemma ReserveStepOk(t: Table, th: Thread, store: CacheKey -> Bytes)
    requires TableOk(t, store) && th.pc.Reserving?
    ensures var (t', th') := ReserveStep(t, th); StepOk(t, th, t', th', store)
  {
    if LruSpec.Reserve(t.cache, th.key).1 {
      ReserveKeepsTable(t, th.key, store);
      OwnerStepOk(t, th, Reserved(t, th.key), store);
    } else {
      RefusedStepOk(t, th, store);
    }
  }

  /** Whoever makes a slot that is being fetched owns it. */
  lemma OwnerStepOk(t: Table, th: Thread, t': Table, store: CacheKey -> Bytes)
    requires th.pc.Reserving? && TableOk(t', store) && Follows(t, t', th.key)
    requires !Fetches(t, th.key) && Fetches(t', th.key) && th.key in t'.ready && t'.ready[th.key] == t.next
    ensures StepOk(t, th, t', th.(pc := Owning(t.next)), store)
  {
  }

  lemma RefusedStepOk(t: Table, th: Thread, store: CacheKey -> Bytes)
    requires TableOk(t, store) && th.pc.Reserving?
    ensures StepOk(t, th, t, th.(pc := if th.reader then LookingAgain else Ended), store)
  {
  }

  /** An owner that has closed the channel of its slot gives up the ownership. */
  lemma ReleaseOk(t: Table, th: Thread, t': Table, r: Result<Bytes, FetchError>, store: CacheKey -> Bytes)
    requires th.pc.Fetched? && ThreadOk(t, th, store) && TableOk(t', store) && Follows(t, t', th.key)
    requires !Fetches(t', th.key) && (r.Ok? ==> r.value == store(th.key))
    ensures StepOk(t, th, t', th.(pc := Returned(r)), store)
  {
  }

  lemma PutStepOk(t: Table, th: Thread, store: CacheKey -> Bytes)
    requires TableOk(t, store) && th.pc.Fetched? && ThreadOk(t, th, store)
    ensures var (t', th') := PutStep(t, th, th.pc.got); StepOk(t, th, t', th', store)
  {
    match th.pc.got
    case Some(data) =>
      StoreKeepsTable(t, th.key, store);
      ReleaseOk(t, th, Stored(t, th.key, data), Ok(data), store);
    case None =>
      DropKeepsTable(t, th.key, store);
      ReleaseOk(t, th, Dropped(t, th.key), Err(FetchFailed), store);
  }

  lemma ThreadStepOk(t: Table, th: Thread, store: CacheKey -> Bytes, fetchOk: bool)
    requires TableOk(t, store) && ThreadOk(t, th, store) && Enabled(t, th)
    ensures var (t', th') := ThreadStep(t, th, store, fetchOk); StepOk(t, th, t', th', store)
  {
    match th.pc
    case Looking => GetStepOk(t, th, store, true);
    case LookingAgain => GetStepOk(t, th, store, false);
    case Parked(_, _) => ResumeStepOk(t, th, store);
    case Reserving => ReserveStepOk(t, th, store);
    case Fetched(_, _) => PutStepOk(t, th, store);
    case _ =>
  }

  lemma StepKeepsOneOwner(t: Table, threads: seq<Thread>, i: nat, th': Thread, store: CacheKey -> Bytes)
    requires ThreadsOk(t, threads, store) && OneOwner(threads) && i < |threads| && th'.key == threads[i].key
    requires Owns(th') ==> Owns(threads[i]) || !Fetches(t, th'.key)
    ensures OneOwner(threads[i := th'])
  {
    if Owns(th') && !Owns(threads[i]) {
      forall j | 0 <= j < |threads| && Owns(threads[j]) ensures threads[j].key != th'.key {
        assert ThreadOk(t, threads[j], store);
      }
    }
  }

  lemma StepKeepsThreads(s: State, i: nat, t': Table, th': Thread, store: CacheKey -> Bytes)
    requires Inv(s, store) && i < |s.threads| && StepOk(s.table, s.threads[i], t', th', store)
    ensures ThreadsOk(t', s.threads[i := th'], store)
  {
    var th, threads' := s.threads[i], s.threads[i := th'];
    forall j | 0 <= j < |s.threads| ensures ThreadOk(t', threads'[j], store) {
      if j != i {
        var other := s.threads[j];
        assert ThreadOk(s.table, other, store);
        if Owns(other) && other.key == th.key {
          OwnerIsAlone(s, i, j, t', th', store);
        } else {
          OtherThread(s.table, t', th.key, other, store);
        }
      }
    }
  }

  /** When another goroutine owns the key, the moving one leaves the key's slot alone. */
  lemma OwnerIsAlone(s: State, i: nat, j: nat, t': Table, th': Thread, store: CacheKey -> Bytes)
    requires Inv(s, store) && i < |s.threads| && j < |s.threads| && i != j
    requires StepOk(s.table, s.threads[i], t', th', store)
    requires Owns(s.threads[j]) && s.threads[j].key == s.threads[i].key
    ensures ThreadOk(t', s.threads[j], store)
  {
    assert ThreadOk(s.table, s.threads[j], store);
    assert !Owns(s.threads[i]);
  }

  lemma StepKeepsOwners(s: State, i: nat, t': Table, th': Thread, store: CacheKey -> Bytes)
    requires Inv(s, store) && i < |s.threads| && StepOk(s.table, s.threads[i], t', th', store)
    ensures forall k | Fetches(t', k) :: HasOwner(s.threads[i := th'], k)
  {
    var th, threads' := s.threads[i], s.threads[i := th'];
    forall k | Fetches(t', k) ensures HasOwner(threads', k) {
      if Fetches(s.table, k) {
        var j :| 0 <= j < |s.threads| && Owns(s.threads[j]) && s.threads[j].key == k;
        assert Owns(threads'[j]) && threads'[j].key == k;
      } else {
        assert Owns(threads'[i]) && threads'[i].key == k;
      }
    }
  }

  lemma StepKeepsInv(s: State, i: nat, store: CacheKey -> Bytes, fetchOk: bool)
    requires Inv(s, store) && CanStep(s, i)
    ensures Inv(Step(s, i, store, fetchOk), store)
  {
    var (t', th') := ThreadStep(s.table, s.threads[i], store, fetchOk);
    ThreadStepOk(s.table, s.threads[i], store, fetchOk);
    StepKeepsThreads(s, i, t', th', store);
    StepKeepsOneOwner(s.table, s.threads, i, th', store);
    StepKeepsOwners(s, i, t', th', store);
  }

  // ----- every schedule -----

  lemma StartInv(s: State, cap: nat, store: CacheKey -> Bytes)
    requires Start(s, cap)
    ensures Inv(s, store)
  {
    forall i | 0 <= i < |s.threads| ensures ThreadOk(s.table, s.threads[i], store) && !Owns(s.threads[i]) {
      assert s.threads[i] in s.threads;
    }
  }

  function TotalRank(threads: seq<Thread>): nat {
    if threads == [] then 0 else Rank(threads[0]) + TotalRank(threads[1..])
  }

  lemma {:induction false} RankDrops(threads: seq<Thread>, i: nat, th: Thread)
    requires i < |threads| && Rank(th) < Rank(threads[i])
    ensures TotalRank(threads[i := th]) < TotalRank(threads)
  {
    if i == 0 {
      assert threads[0 := th][1..] == threads[1..];
    } else {
      assert threads[i := th][1..] == threads[1..][i - 1 := th];
      RankDrops(threads[1..], i - 1, th);
    }
  }

  lemma {:induction false} RankBound(threads: seq<Thread>)
    ensures TotalRank(threads) <= 6 * |threads|
  {
    if threads != [] { RankBound(threads[1..]); }
  }

  /** A schedule keeps the capacity and the goroutines' keys, and is bounded in length. */
  ghost predicate Reaches(s0: State, s: State, store: CacheKey -> Bytes, moves: seq<Move>) {
    && Inv(s, store) && s.table.cache.cap == s0.table.cache.cap
    && |s.threads| == |s0.threads|
    && |moves| + TotalRank(s.threads) <= TotalRank(s0.threads)
    && (forall i | 0 <= i < |s.threads| :: SameReader(s0.threads[i], s.threads[i]))
  }

  predicate SameReader(th0: Thread, th: Thread) {
    th.key == th0.key && th.reader == th0.reader && (th.pc.Ended? ==> !th.reader)
  }

  lemma StepFrame(t: Table, th: Thread, store: CacheKey -> Bytes, fetchOk: bool)
    requires Enabled(t, th)
    ensures var (t', th') := ThreadStep(t, th, store, fetchOk);
            && t'.cache.cap == t.cache.cap && th'.key == th.key && th'.reader == th.reader
            && (th'.pc.Ended? ==> !th.reader)
            && (fetchOk && !Failed(th) ==> !Failed(th'))
  {
  }

  predicate Failed(th: Thread) {
    (th.pc.Fetched? && th.pc.got.None?) || (th.pc.Returned? && th.pc.result.Err?)
  }

  lemma {:induction false} RunReaches(s0: State, cap: nat, store: CacheKey -> Bytes, moves: seq<Move>)
    requires Start(s0, cap) && Run(s0, store, moves).Some?
    ensures Reaches(s0, Run(s0, store, moves).value, store, moves)
  {
    if moves == [] {
      StartInv(s0, cap, store);
      forall i | 0 <= i < |s0.threads| ensures SameReader(s0.threads[i], s0.threads[i]) {
        assert s0.threads[i] in s0.threads;
      }
    } else {
      var init, m := moves[..|moves| - 1], moves[|moves| - 1];
      RunReaches(s0, cap, store, init);
      var s := Run(s0, store, init).value;
      var (t', th') := ThreadStep(s.table, s.threads[m.thread], store, m.fetchOk);
      StepKeepsInv(s, m.thread, store, m.fetchOk);
      ThreadStepOk(s.table, s.threads[m.thread], store, m.fetchOk);
      RankDrops(s.threads, m.thread, th');
      StepFrame(s.table, s.threads[m.thread], store, m.fetchOk);
    }
  }

  /** Goroutine j owns the slot th waits for, and can move. */
  predicate WillWake(s: State, j: nat, th: Thread)
    requires th.pc.Parked?
  {
    && CanStep(s, j) && Owns(s.threads[j])
    && s.threads[j].key == th.key && s.threads[j].pc.ch == th.pc.ch
  }

  ghost predicate NobodyIsStranded(s: State) {
    forall i | 0 <= i < |s.threads| && s.threads[i].pc.Parked? && s.threads[i].pc.ch !in s.table.closed ::
      exists j: nat :: WillWake(s, j, s.threads[i])
  }

  ghost predicate AnswersAgree(s: State, store: CacheKey -> Bytes) {
    forall i | 0 <= i < |s.threads| && s.threads[i].pc.Returned? && s.threads[i].pc.result.Ok? ::
      s.threads[i].pc.result.value == store(s.threads[i].key)
  }

  lemma ParkedHasOwner(s: State, i: nat, store: CacheKey -> Bytes)
    requires Inv(s, store) && i < |s.threads| && s.threads[i].pc.Parked? && s.threads[i].pc.ch !in s.table.closed
    ensures exists j: nat :: WillWake(s, j, s.threads[i])
  {
    var k := s.threads[i].key;
    assert ThreadOk(s.table, s.threads[i], store);
    assert HasOwner(s.threads, k);
    var j :| 0 <= j < |s.threads| && Owns(s.threads[j]) && s.threads[j].key == k;
    assert ThreadOk(s.table, s.threads[j], store);
    assert WillWake(s, j, s.threads[i]);
  }

  lemma InvIsSafe(s: State, store: CacheKey -> Bytes)
    requires Inv(s, store)
    ensures NobodyIsStranded(s) && AnswersAgree(s, store)
  {
    forall i | 0 <= i < |s.threads| && s.threads[i].pc.Parked? && s.threads[i].pc.ch !in s.table.closed
      ensures exists j: nat :: WillWake(s, j, s.threads[i])
    {
      ParkedHasOwner(s, i, store);
    }
    forall i | 0 <= i < |s.threads| && s.threads[i].pc.Returned? && s.threads[i].pc.result.Ok?
      ensures s.threads[i].pc.result.value == store(s.threads[i].key)
    {
      assert ThreadOk(s.table, s.threads[i], store);
    }
  }

  /** Over every schedule of any readers and prefetchers: the cache is never over its capacity;
      no two goroutines own one key; whoever is parked on an open channel waits for a goroutine
      that owns the slot and can move; and whatever data is returned is what the store has. */
  lemma Safety(s0: State, cap: nat, store: CacheKey -> Bytes, moves: seq<Move>, s: State)
    requires Start(s0, cap) && Run(s0, store, moves) == Some(s)
    ensures |s.table.cache.slots| <= cap
    ensures OneOwner(s.threads)
    ensures NobodyIsStranded(s)
    ensures AnswersAgree(s, store)
  {
    RunReaches(s0, cap, store, moves);
    InvIsSafe(s, store);
  }

  predicate Finished(th: Thread) {
    th.pc.Returned? || th.pc.Ended?
  }

  lemma SomeoneCanMove(s: State, store: CacheKey -> Bytes, i: nat)
    requires Inv(s, store) && i < |s.threads| && !Finished(s.threads[i])
    ensures exists j: nat :: CanStep(s, j)
  {
    if !CanStep(s, i) {
      ParkedHasOwner(s, i, store);
      var j: nat :| WillWake(s, j, s.threads[i]);
      assert CanStep(s, j);
    }
  }

  /** No schedule deadlocks or runs forever: at most six steps are taken per goroutine, and
      while one is unfinished some goroutine can move. */
  lemma Progress(s0: State, cap: nat, store: CacheKey -> Bytes, moves: seq<Move>, s: State)
    requires Start(s0, cap) && Run(s0, store, moves) == Some(s)
    ensures |moves| <= 6 * |s0.threads|
    ensures (exists j: nat :: CanStep(s, j)) || forall i | 0 <= i < |s.threads| :: Finished(s.threads[i])
  {
    RunReaches(s0, cap, store, moves);
    RankBound(s0.threads);
    if i: nat :| i < |s.threads| && !Finished(s.threads[i]) {
      SomeoneCanMove(s, store, i);
    }
  }

  lemma {:induction false} NothingFailed(s0: State, cap: nat, store: CacheKey -> Bytes, moves: seq<Move>)
    requires Start(s0, cap) && Run(s0, store, moves).Some? && forall m | m in moves :: m.fetchOk
    ensures forall i | 0 <= i < |Run(s0, store, moves).value.threads| :: !Failed(Run(s0, store, moves).value.threads[i])
  {
    if moves == [] {
      forall i | 0 <= i < |s0.threads| ensures !Failed(s0.threads[i]) {
        assert s0.threads[i] in s0.threads;
      }
    } else {
      var init, m := moves[..|moves| - 1], moves[|moves| - 1];
      assert m in moves && forall x | x in init :: x in moves;
      NothingFailed(s0, cap, store, init);
      var s := Run(s0, store, init).value;
      StepFrame(s.table, s.threads[m.thread], store, m.fetchOk);
    }
  }

  lemma FinishedReader(s: State, store: CacheKey -> Bytes, i: nat, th0: Thread)
    requires Inv(s, store) && i < |s.threads| && SameReader(th0, s.threads[i]) && th0.reader
    requires Finished(s.threads[i]) && !Failed(s.threads[i])
    ensures s.threads[i].pc == Returned(Ok(store(th0.key)))
  {
    assert ThreadOk(s.table, s.threads[i], store);
  }

  /** A schedule that runs to the end without a failed fetch gives every reader its block. */
  lemma EveryReaderIsServed(s0: State, cap: nat, store: CacheKey -> Bytes, moves: seq<Move>, s: State)
    requires Start(s0, cap) && Run(s0, store, moves) == Some(s) && forall m | m in moves :: m.fetchOk
    requires forall i: nat :: !CanStep(s, i)
    ensures |s.threads| == |s0.threads|
    ensures forall i | 0 <= i < |s0.threads| && s0.threads[i].reader ::
              s.threads[i].pc == Returned(Ok(store(s0.threads[i].key)))
  {
    RunReaches(s0, cap, store, moves);
    NothingFailed(s0, cap, store, moves);
    forall i | 0 <= i < |s0.threads| && s0.threads[i].reader
      ensures s.threads[i].pc == Returned(Ok(store(s0.threads[i].key)))
    {
      assert SameReader(s0.threads[i], s.threads[i]);
      if !Finished(s.threads[i]) { SomeoneCanMove(s, store, i); }
      FinishedReader(s, store, i, s0.threads[i]);
    }
  }
}
