/** The in-memory block cache: slots in a map, a recency list of the clean ones, and a channel
    per slot that is closed when its data is ready.

    Every operation is proved to be the corresponding operation of LruSpec. */
module BufferCaches {
  import opened Blocks
  import opened LruSpec
  import opened Outcomes

  datatype SlotState = SlotEmpty | SlotFetching | SlotClean

  /** An element of the recency list.  The list knows its elements by identity. */
  datatype Elem = Elem(id: nat, key: CacheKey)

  datatype CacheSlot = CacheSlot(data: Option<Bytes>, ready: Chan, err: Option<FetchError>, elem: Option<nat>, state: SlotState)

  function View(s: CacheSlot): SlotView {
    if s.state == SlotClean && s.data.Some? then Clean(s.data.value) else Fetching
  }

  function Keys(list: seq<Elem>): (ks: seq<CacheKey>)
    ensures |ks| == |list|
  {
    if list == [] then [] else [list[0].key] + Keys(list[1..])
  }

  function Removed(list: seq<Elem>, id: nat): seq<Elem> {
    if list == [] then []
    else if list[0].id == id then Removed(list[1..], id)
    else [list[0]] + Removed(list[1..], id)
  }

  /** A slot in the map is being fetched, with an open channel, or clean, with data, a closed
      channel and an element in the list. */
  ghost predicate SlotOk(s: CacheSlot, closed: set<Chan>) {
    match s.state
    case SlotClean => s.data.Some? && s.err.None? && s.elem.Some? && s.ready in closed
    case SlotFetching => s.data.None? && s.err.None? && s.elem.None? && s.ready !in closed
    case SlotEmpty => false
  }

  /** The elements of the list are those of the clean slots. */
  ghost predicate ListOk(slots: map<CacheKey, CacheSlot>, lru: seq<Elem>) {
    && Distinct(Keys(lru))
    && (forall e | e in lru :: e.key in slots && slots[e.key].elem == Some(e.id))
    && (forall k | k in slots && slots[k].elem.Some? :: Elem(slots[k].elem.value, k) in lru)
  }

  ghost predicate ChansOk(slots: map<CacheKey, CacheSlot>, nextChan: Chan) {
    && (forall k | k in slots :: slots[k].ready < nextChan)
    && (forall k, k' | k in slots && k' in slots && k != k' :: slots[k].ready != slots[k'].ready)
  }

  lemma {:induction false} KeysMember(list: seq<Elem>, e: Elem)
    requires e in list
    ensures e.key in Keys(list)
  {
    if list[0] != e { KeysMember(list[1..], e); }
  }

  lemma {:induction false} KeysOrigin(list: seq<Elem>, k: CacheKey)
    requires k in Keys(list)
    ensures exists e :: e in list && e.key == k
  {
    if list[0].key == k {
      assert list[0] in list;
    } else {
      KeysOrigin(list[1..], k);
      var e :| e in list[1..] && e.key == k;
      assert e in list;
    }
  }

  lemma {:induction false} RemovedMembers(list: seq<Elem>, id: nat)
    ensures forall e :: e in Removed(list, id) <==> e in list && e.id != id
  {
    if list != [] {
      RemovedMembers(list[1..], id);
      assert list == [list[0]] + list[1..];
    }
  }

  /** When the element with this identity is the only one for its key, removing it removes the
      key. */
  lemma {:induction false} RemovedKeys(list: seq<Elem>, id: nat, k: CacheKey)
    requires forall e | e in list :: e.id == id <==> e.key == k
    ensures Keys(Removed(list, id)) == Without(Keys(list), k)
  {
    if list != [] {
      assert list[0] in list;
      assert forall e | e in list[1..] :: e in list;
      RemovedKeys(list[1..], id, k);
      assert Keys(list)[1..] == Keys(list[1..]);
      var r := Removed(list[1..], id);
      assert ([list[0]] + r)[1..] == r;
    }
  }

  lemma {:induction false} KeysInit(list: seq<Elem>)
    requires list != []
    ensures Keys(list[..|list| - 1]) == Keys(list)[..|list| - 1]
    ensures Keys(list)[|list| - 1] == list[|list| - 1].key
  {
    if |list| > 1 {
      KeysInit(list[1..]);
      assert list[..|list| - 1][1..] == list[1..][..|list| - 2];
    }
  }

  lemma KeysCons(e: Elem, list: seq<Elem>)
    ensures Keys([e] + list) == [e.key] + Keys(list)
  {
    assert ([e] + list)[1..] == list;
  }

  function Views(slots: map<CacheKey, CacheSlot>): map<CacheKey, SlotView> {
    map k | k in slots :: View(slots[k])
  }

  ghost predicate Good(slots: map<CacheKey, CacheSlot>, lru: seq<Elem>, closed: set<Chan>, nextChan: Chan, nextElem: nat) {
    SlotsOk(slots, closed) && ListOk(slots, lru) && ChansOk(slots, nextChan) && Used(closed, lru, nextChan, nextElem)
  }

  ghost predicate SlotsOk(slots: map<CacheKey, CacheSlot>, closed: set<Chan>) {
    forall k | k in slots :: SlotOk(slots[k], closed)
  }

  /** Channels and elements come from the counters, and no two elements share a number. */
  ghost predicate Used(closed: set<Chan>, lru: seq<Elem>, nextChan: Chan, nextElem: nat) {
    && (forall c | c in closed :: c < nextChan)
    && (forall e | e in lru :: e.id < nextElem)
    && (forall e, e' | e in lru && e' in lru && e.id == e'.id :: e == e')
  }

  lemma RefillGood(slots: map<CacheKey, CacheSlot>, lru: seq<Elem>, closed: set<Chan>, nextChan: Chan, nextElem: nat,
                   k: CacheKey, d: Bytes)
    requires Good(slots, lru, closed, nextChan, nextElem) && k in slots && slots[k].state == SlotClean
    ensures var slots' := slots[k := slots[k].(data := Some(d), err := None)];
            && Good(slots', lru, closed + {slots[k].ready}, nextChan, nextElem)
            && Views(slots') == Views(slots)[k := Clean(d)]
  {
  }

  lemma DropGood(slots: map<CacheKey, CacheSlot>, lru: seq<Elem>, closed: set<Chan>, nextChan: Chan, nextElem: nat,
                 k: CacheKey)
    requires Good(slots, lru, closed, nextChan, nextElem) && k in slots
    ensures Good(slots - {k}, lru, closed + {slots[k].ready}, nextChan, nextElem) <==> slots[k].state != SlotClean
    ensures Views(slots - {k}) == Views(slots) - {k}
  {
    if slots[k].elem.Some? {
      assert Elem(slots[k].elem.value, k) in lru;
    } else {
      assert forall e | e in lru :: e.key != k;
      assert forall x | x in slots && x != k :: slots[x].ready != slots[k].ready;
    }
  }

  lemma DropListedGood(slots: map<CacheKey, CacheSlot>, lru: seq<Elem>, closed: set<Chan>, nextChan: Chan, nextElem: nat,
                       k: CacheKey)
    requires Good(slots, lru, closed, nextChan, nextElem) && k in slots && slots[k].elem.Some?
    ensures var rest := Removed(lru, slots[k].elem.value);
            && Good(slots - {k}, rest, closed + {slots[k].ready}, nextChan, nextElem)
            && Keys(rest) == Without(Keys(lru), k)
  {
    var id := slots[k].elem.value;
    assert Elem(id, k) in lru;
    RemovedMembers(lru, id);
    RemovedKeys(lru, id, k);
    WithoutDistinct(Keys(lru), k);
    RemovedListOk(slots, lru, Removed(lru, id), k);
    assert forall x | x in slots && x != k :: slots[x].ready != slots[k].ready;
  }

  lemma DropBothGood(slots: map<CacheKey, CacheSlot>, lru: seq<Elem>, closed: set<Chan>, nextChan: Chan, nextElem: nat,
                     k: CacheKey)
    requires Good(slots, lru, closed, nextChan, nextElem) && k in slots
    ensures var rest := if slots[k].elem.Some? then Removed(lru, slots[k].elem.value) else lru;
            && Good(slots - {k}, rest, closed + {slots[k].ready}, nextChan, nextElem)
            && Keys(rest) == Without(Keys(lru), k)
  {
    if slots[k].elem.Some? {
      DropListedGood(slots, lru, closed, nextChan, nextElem, k);
    } else {
      DropGood(slots, lru, closed, nextChan, nextElem, k);
      WithoutMembers(Keys(lru), k);
      if k in Keys(lru) { KeysOrigin(lru, k); }
    }
  }

  lemma RemovedListOk(slots: map<CacheKey, CacheSlot>, lru: seq<Elem>, rest: seq<Elem>, k: CacheKey)
    requires ListOk(slots, lru) && Distinct(Keys(rest))
    requires forall e :: e in rest <==> e in lru && e.key != k
    ensures ListOk(slots - {k}, rest)
  {
  }

  lemma EvictGood(slots: map<CacheKey, CacheSlot>, lru: seq<Elem>, closed: set<Chan>, nextChan: Chan, nextElem: nat)
    requires Good(slots, lru, closed, nextChan, nextElem) && lru != []
    ensures var init, last := lru[..|lru| - 1], lru[|lru| - 1];
            && Good(slots - {last.key}, init, closed, nextChan, nextElem)
            && Views(slots - {last.key}) == Views(slots) - {last.key}
            && Keys(init) == Keys(lru)[..|lru| - 1] && Keys(lru)[|lru| - 1] == last.key
  {
    var init, last := lru[..|lru| - 1], lru[|lru| - 1];
    KeysInit(lru);
    DistinctInit(Keys(lru));
    forall e | e in init ensures e.key != last.key { KeysMember(init, e); }
    assert lru == init + [last];
    ShorterListOk(slots, init, last);
  }

  lemma EvictIs(slots: map<CacheKey, CacheSlot>, lru: seq<Elem>, cap: int, closed: set<Chan>, nextChan: Chan, nextElem: nat)
    requires Good(slots, lru, closed, nextChan, nextElem) && lru != []
    ensures var init, last := lru[..|lru| - 1], lru[|lru| - 1];
            && Good(slots - {last.key}, init, closed, nextChan, nextElem)
            && Lru(Views(slots - {last.key}), Keys(init), cap) == Evict(Lru(Views(slots), Keys(lru), cap))
  {
    EvictGood(slots, lru, closed, nextChan, nextElem);
  }

  lemma ShorterListOk(slots: map<CacheKey, CacheSlot>, init: seq<Elem>, last: Elem)
    requires ListOk(slots, init + [last]) && Distinct(Keys(init))
    requires forall e | e in init :: e.key != last.key
    ensures ListOk(slots - {last.key}, init)
  {
    forall e | e in init ensures e in init + [last] {}
  }

  lemma ReserveGood(slots: map<CacheKey, CacheSlot>, lru: seq<Elem>, closed: set<Chan>, nextChan: Chan, nextElem: nat,
                    k: CacheKey)
    requires Good(slots, lru, closed, nextChan, nextElem) && k !in slots
    ensures var slots' := slots[k := CacheSlot(None, nextChan, None, None, SlotFetching)];
            Good(slots', lru, closed, nextChan + 1, nextElem) && Views(slots') == Views(slots)[k := Fetching]
  {
  }

  lemma PushGood(slots: map<CacheKey, CacheSlot>, lru: seq<Elem>, closed: set<Chan>, nextChan: Chan, nextElem: nat,
                 k: CacheKey, slot: CacheSlot)
    requires Good(slots, lru, closed, nextChan, nextElem)
    requires k !in Keys(lru) && slot.state == SlotClean && slot.data.Some? && slot.err.None?
    requires slot.ready < nextChan && forall k' | k' in slots && k' != k :: slots[k'].ready != slot.ready
    ensures var slots', list := slots[k := slot.(elem := Some(nextElem))], [Elem(nextElem, k)] + lru;
            && Good(slots', list, closed + {slot.ready}, nextChan, nextElem + 1)
            && Keys(list) == [k] + Keys(lru) && Views(slots') == Views(slots)[k := Clean(slot.data.value)]
  {
    DistinctCons(k, Keys(lru));
    KeysCons(Elem(nextElem, k), lru);
    forall e | e in lru ensures e.key != k { KeysMember(lru, e); }
    PushListOk(slots, lru, k, slot.(elem := Some(nextElem)), nextElem);
  }

  lemma PushListOk(slots: map<CacheKey, CacheSlot>, lru: seq<Elem>, k: CacheKey, slot: CacheSlot, id: nat)
    requires ListOk(slots, lru) && slot.elem == Some(id) && forall e | e in lru :: e.key != k
    requires Distinct(Keys([Elem(id, k)] + lru))
    ensures ListOk(slots[k := slot], [Elem(id, k)] + lru)
  {
  }

  /** The list without the keys of a set. */
  function WithoutAll(order: seq<CacheKey>, gone: set<CacheKey>): seq<CacheKey> {
    if order == [] then []
    else if order[0] in gone then WithoutAll(order[1..], gone)
    else [order[0]] + WithoutAll(order[1..], gone)
  }

  lemma {:induction false} WithoutOneMore(order: seq<CacheKey>, gone: set<CacheKey>, k: CacheKey)
    ensures Without(WithoutAll(order, gone), k) == WithoutAll(order, gone + {k})
  {
    if order != [] {
      WithoutOneMore(order[1..], gone, k);
      var w := WithoutAll(order[1..], gone);
      assert ([order[0]] + w)[1..] == w;
    }
  }

  lemma {:induction false} WithoutNone(order: seq<CacheKey>)
    ensures WithoutAll(order, {}) == order
  {
    if order != [] {
      WithoutNone(order[1..]);
      assert [order[0]] + order[1..] == order;
    }
  }

  lemma {:induction false} WithoutAllOfLink(order: seq<CacheKey>, gone: set<CacheKey>, link: string)
    requires forall k | k in order :: k in gone <==> k.linkId == link
    ensures WithoutAll(order, gone) == WithoutLink(order, link)
  {
    if order != [] {
      assert order[0] in order;
      assert forall k | k in order[1..] :: k in order;
      WithoutAllOfLink(order[1..], gone, link);
    }
  }

  /** Dropping all slots of a link is what invalidating it means. */
  lemma WithoutLinkGone(slots: map<CacheKey, CacheSlot>, lru: seq<Elem>, gone: set<CacheKey>, link: string, cap: int)
    requires ListOk(slots, lru) && forall k | k in slots :: k in gone <==> k.linkId == link
    ensures Lru(Views(slots - gone), WithoutAll(Keys(lru), gone), cap) ==
            LruSpec.Invalidate(Lru(Views(slots), Keys(lru), cap), link)
  {
    forall k | k in Keys(lru) ensures k in gone <==> k.linkId == link {
      KeysOrigin(lru, k);
    }
    WithoutAllOfLink(Keys(lru), gone, link);
  }

  class BufferCache {
    var slots: map<CacheKey, CacheSlot>
    var lru: seq<Elem>  // most recent first
    const cap: int
    var closed: set<Chan>
    var nextChan: Chan
    var nextElem: nat

    ghost predicate Valid()
      reads this
    {
      Good(slots, lru, closed, nextChan, nextElem)
    }

    ghost function Abs(): Lru
      reads this
    {
      Lru(Views(slots), Keys(lru), cap)
    }

    constructor (capacity: int)
      ensures Valid() && Abs() == Run(capacity, [])
    {
      slots, lru, cap, closed, nextChan, nextElem := map[], [], capacity, {}, 0, 0;
    }

    /** A valid cache is consistent: the list holds exactly the clean slots, each once. */
    lemma ValidIsConsistent()
      requires Valid()
      ensures Consistent(Abs())
    {
      forall k ensures k in Keys(lru) <==> IsClean(Abs().slots, k) {
        if k in Keys(lru) {
          KeysOrigin(lru, k);
        }
        if IsClean(Abs().slots, k) {
          KeysMember(lru, Elem(slots[k].elem.value, k));
        }
      }
    }

    lemma AbsSize()
      ensures |Abs().slots| == |slots| && Abs().slots.Keys == slots.Keys
    {
      assert Abs().slots.Keys == slots.Keys;
      assert |Abs().slots| == |Abs().slots.Keys| && |slots| == |slots.Keys|;
    }

    /** Moves an element to the front of the list. */
    method MoveToFront(k: CacheKey, id: nat)
      requires Valid() && k in slots && slots[k].elem == Some(id)
      modifies `lru
      ensures Valid() && Keys(lru) == [k] + Without(old(Keys(lru)), k)
    {
      forall e | e in lru ensures e.id == id <==> e.key == k {
        assert Elem(id, k) in lru;
      }
      RemovedMembers(lru, id);
      RemovedKeys(lru, id, k);
      WithoutMembers(Keys(lru), k);
      WithoutDistinct(Keys(lru), k);
      DistinctCons(k, Without(Keys(lru), k));
      KeysCons(Elem(id, k), Removed(lru, id));
      lru := [Elem(id, k)] + Removed(lru, id);
    }

    /** Closes a channel unless it is closed already. */
    method Close(c: Chan)
      modifies `closed
      ensures closed == old(closed) + {c}
    {
      if c !in closed { closed := closed + {c}; }
    }

    /** The first half of Get, up to the wait: a hit, a miss, or the channel to wait on. */
    method GetStart(k: CacheKey) returns (out: Out, ready: Option<Chan>)
      requires Valid()
      modifies `lru
      ensures Valid() && (Abs(), out) == LruSpec.Get(old(Abs()), k)
      ensures out.Wait? <==> ready.Some?
      ensures out.Wait? ==> k in slots && ready == Some(slots[k].ready) && ready.value !in closed
    {
      if k !in slots { return Miss, None; }
      var slot := slots[k];
      match slot.state
      case SlotClean =>
        MoveToFront(k, slot.elem.value);
        return Hit(slot.data.value), None;
      case SlotFetching =>
        return Wait, Some(slot.ready);
      case SlotEmpty =>
        assert false;
    }

    /** The second half of Get, after the channel was closed: the slot is looked up again.  A
        slot that is absent, or being fetched anew, is a miss. */
    method GetResume(k: CacheKey) returns (out: Out)
      requires Valid()
      modifies `lru
      ensures Valid()
      ensures var (l, o) := LruSpec.Get(old(Abs()), k); Abs() == l && out == if o.Wait? then Miss else o
    {
      if k !in slots { return Miss; }
      var slot := slots[k];
      if slot.state == SlotClean { MoveToFront(k, slot.elem.value); }
      return match slot.data case Some(data) => Hit(data) case None => Miss;
    }

    method Put(k: CacheKey, data: Bytes)
      requires Valid()
      modifies `slots, `lru, `closed, `nextChan, `nextElem
      ensures Valid() && Abs() == LruSpec.Put(old(Abs()), k, data)
      ensures k in slots && slots[k].ready in closed && old(closed) <= closed
      ensures k in old(slots) ==> slots[k].ready == old(slots[k].ready)
    {
      AbsSize();
      if k in slots {
        PutExisting(k, data);
      } else {
        if |slots| >= cap {
          var evicted := EvictLocked();
        }
        PutNew(k, data);
      }
    }

    /** The slot becomes clean and its waiters are woken. */
    method PutExisting(k: CacheKey, d: Bytes)
      requires Valid() && k in slots
      modifies `slots, `lru, `closed, `nextElem
      ensures Valid() && Abs() == LruSpec.Put(old(Abs()), k, d)
      ensures k in slots && slots[k].ready == old(slots[k].ready) && closed == old(closed) + {slots[k].ready}
    {
      var slot := slots[k];
      if slot.elem.None? {
        NotListed(k);
        WithoutMembers(Keys(lru), k);
        PushFront(k, CacheSlot(Some(d), slot.ready, None, None, SlotClean));
      } else {
        MoveToFront(k, slot.elem.value);
        Refill(k, d);
      }
    }

    /** New data for a slot that is clean already. */
    method Refill(k: CacheKey, d: Bytes)
      requires Valid() && k in slots && slots[k].state == SlotClean
      modifies `slots, `closed
      ensures Valid() && Abs() == old(Abs()).(slots := old(Abs()).slots[k := Clean(d)])
      ensures k in slots && slots[k].ready == old(slots[k].ready) && closed == old(closed) + {slots[k].ready}
    {
      var slot := slots[k];
      RefillGood(slots, lru, closed, nextChan, nextElem, k, d);
      slots := slots[k := slot.(data := Some(d), err := None, state := SlotClean)];
      Close(slot.ready);
    }

    /** A slot without an element is not on the list. */
    lemma NotListed(k: CacheKey)
      requires Valid() && (k !in slots || slots[k].elem.None?)
      ensures k !in Keys(lru)
    {
      if k in Keys(lru) { KeysOrigin(lru, k); }
    }

    /** Puts a clean slot with a new element at the front of the list, and closes its channel. */
    method PushFront(k: CacheKey, slot: CacheSlot)
      requires Valid() && k !in Keys(lru) && slot.state == SlotClean && slot.data.Some? && slot.err.None?
      requires slot.ready < nextChan && forall k' | k' in slots && k' != k :: slots[k'].ready != slot.ready
      modifies `slots, `lru, `closed, `nextElem
      ensures Valid() && Abs() == Lru(old(Abs()).slots[k := Clean(slot.data.value)], [k] + old(Abs()).order, cap)
      ensures k in slots && slots[k].ready == slot.ready && closed == old(closed) + {slot.ready}
    {
      PushGood(slots, lru, closed, nextChan, nextElem, k, slot);
      lru := [Elem(nextElem, k)] + lru;
      slots := slots[k := slot.(elem := Some(nextElem))];
      nextElem := nextElem + 1;
      Close(slot.ready);
    }

    method PutNew(k: CacheKey, d: Bytes)
      requires Valid() && k !in slots
      modifies `slots, `lru, `closed, `nextChan, `nextElem
      ensures Valid() && Abs() == Lru(old(Abs()).slots[k := Clean(d)], [k] + old(Abs()).order, cap)
      ensures k in slots && slots[k].ready in closed && old(closed) <= closed
    {
      NotListed(k);
      var ready := nextChan;
      nextChan := nextChan + 1;
      PushFront(k, CacheSlot(Some(d), ready, None, None, SlotClean));
    }

    /** Drops a slot whose fetch failed and wakes its waiters.  The recency list is not touched,
        so the cache stays valid exactly when the slot was absent or being fetched. */
    method PutError(k: CacheKey, error: FetchError)
      requires Valid()
      modifies `slots, `closed
      ensures Abs() == LruSpec.PutError(old(Abs()), k)
      ensures Valid() <==> !old(k in slots && slots[k].state == SlotClean)
      ensures closed == old(closed) + if k in old(slots) then {old(slots[k].ready)} else {}
    {
      if k !in slots { return; }
      var slot := slots[k];
      DropGood(slots, lru, closed, nextChan, nextElem, k);
      slots := slots - {k};
      Close(slot.ready);
    }

    /** Creates a slot to fetch into, unless there is one or no room can be made. */
    method Reserve(k: CacheKey) returns (ok: bool)
      requires Valid()
      modifies `slots, `lru, `nextChan
      ensures Valid() && (Abs(), ok) == LruSpec.Reserve(old(Abs()), k)
      ensures ok ==> k in slots && slots[k].ready !in closed && slots[k].ready >= old(nextChan)
    {
      AbsSize();
      if k in slots { return false; }
      if |slots| >= cap {
        var evicted := EvictLocked();
        if !evicted { return false; }
      }
      ReserveNew(k);
      return true;
    }

    method ReserveNew(k: CacheKey)
      requires Valid() && k !in slots
      modifies `slots, `nextChan
      ensures Valid() && Abs() == old(Abs()).(slots := old(Abs()).slots[k := Fetching])
      ensures k in slots && slots[k].ready !in closed && slots[k].ready == old(nextChan)
    {
      ReserveGood(slots, lru, closed, nextChan, nextElem, k);
      slots := slots[k := CacheSlot(None, nextChan, None, None, SlotFetching)];
      nextChan := nextChan + 1;
    }

    /** Takes one slot off the list and out of the map, and wakes its waiters. */
    method DropSlot(k: CacheKey)
      requires Valid() && k in slots
      modifies `slots, `lru, `closed
      ensures Valid() && slots == old(slots) - {k} && Keys(lru) == Without(old(Keys(lru)), k)
      ensures closed == old(closed) + {old(slots[k].ready)}
    {
      var slot := slots[k];
      ghost var s0, l0, c0 := slots, lru, closed;
      if slot.elem.Some? { lru := Removed(lru, slot.elem.value); }
      slots := slots - {k};
      Close(slot.ready);
      DropBothGood(s0, l0, c0, nextChan, nextElem, k);
    }

    /** Some slots are gone since a moment, and their waiters were woken. */
    ghost predicate Dropped(slots0: map<CacheKey, CacheSlot>, keys0: seq<CacheKey>, gone: set<CacheKey>)
      reads this
    {
      && slots == slots0 - gone && Keys(lru) == WithoutAll(keys0, gone)
      && forall k | k in gone && k in slots0 :: slots0[k].ready in closed
    }

    method DropNext(k: CacheKey, ghost slots0: map<CacheKey, CacheSlot>, ghost keys0: seq<CacheKey>, ghost gone: set<CacheKey>)
      requires Valid() && k in slots && Dropped(slots0, keys0, gone)
      modifies `slots, `lru, `closed
      ensures Valid() && slots == old(slots) - {k} && Dropped(slots0, keys0, gone + {k})
    {
      WithoutOneMore(keys0, gone, k);
      DropSlot(k);
      assert slots0 - gone - {k} == slots0 - (gone + {k});
    }

    /** Removes all slots of a link, in any order, and wakes their waiters. */
    method Invalidate(link: string)
      requires Valid()
      modifies `slots, `lru, `closed
      ensures Valid() && Abs() == LruSpec.Invalidate(old(Abs()), link)
      ensures forall k | k in old(slots) && k.linkId == link :: old(slots[k].ready) in closed
    {
      var rest := slots.Keys;
      ghost var gone, slots0, keys0 := {}, slots, Keys(lru);
      WithoutNone(keys0);
      while rest != {}
        invariant Valid() && rest <= slots.Keys
        invariant Dropped(slots0, keys0, gone)
        invariant forall k | k in slots0 :: k in gone <==> k !in rest && k.linkId == link
        decreases rest
      {
        var k :| k in rest;
        rest := rest - {k};
        if k.linkId != link { continue; }
        DropNext(k, slots0, keys0, gone);
        gone := gone + {k};
      }
      WithoutLinkGone(slots0, old(lru), gone, link, cap);
    }

    /** Removes the slot at the back of the list; false when the list is empty. */
    method EvictLocked() returns (evicted: bool)
      requires Valid()
      modifies `slots, `lru
      ensures Valid() && Abs() == Evict(old(Abs())) && evicted == (old(lru) != [])
      ensures forall k | k in slots :: k in old(slots) && slots[k] == old(slots[k])
    {
      if lru == [] { return false; }
      var slot := lru[|lru| - 1];
      EvictIs(slots, lru, cap, closed, nextChan, nextElem);
      lru, slots := lru[..|lru| - 1], slots - {slot.key};
      return true;
    }
  }
}
