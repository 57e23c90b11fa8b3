/** The configuration as its user sees it: the names, the accepted values, the refusals and the
    order of a listing. */
module ConfigTexts {
  import opened Outcomes
  import opened Selectors
  import opened Decimal
  import opened SortedStrings
  import opened ConfigStore

  // ----- names -----

  /** Every selector in full. */
  lemma Names(svc: string, id: string)
    ensures Name(Core(Account)) == "core.account" && Name(Core(AppVersion)) == "core.app_version"
    ensures Name(Core(MaxJobs)) == "core.max_jobs" && Name(Watermark) == "core.memory_cache_watermark"
    ensures Name(Prefetch) == "protonfs.prefetch_blocks" && Name(Mode) == "protonfs.block_cache_mode"
    ensures Name(Poll) == "protonfs.event_poll_interval"
    ensures Name(Sub(svc, Account)) == svc + ".account" && Name(Sub(svc, AppVersion)) == svc + ".app_version"
    ensures Name(Sub(svc, MaxJobs)) == svc + ".max_jobs"
    ensures Name(Memory(id)) == "share[id=" + id + "].memory_cache"
    ensures Name(Disk(id)) == "share[id=" + id + "].disk_cache"
  {
  }

  /** No two addressable places share a selector. */
  lemma NamesDiffer(a: Address, b: Address)
    requires Addressable(a) && Addressable(b) && Name(a) == Name(b)
    ensures a == b
  {
    NameRoundTrip(a);
    NameRoundTrip(b);
  }

  predicate HasField(ns: string, field: string) {
    if ns == "core" then field in {"account", "app_version", "max_jobs", "memory_cache_watermark"}
    else if ns == "protonfs" then field in {"prefetch_blocks", "block_cache_mode", "event_poll_interval"}
    else if ns == "share" then field in {"memory_cache", "disk_cache"}
    else field in {"account", "app_version", "max_jobs"}
  }

  /** Which selectors are refused, and why. */
  lemma Refusals(sel: seq<Segment>)
    ensures AddressOf(sel) == Err(TooShort) <==> |sel| < 2
    ensures |sel| >= 2 ==>
              && (AddressOf(sel) == Err(UnknownNamespace) <==>
                    sel[0].name !in {"core", "protonfs", "share", "account", "drive", "lumo"})
              && (AddressOf(sel) == Err(MissingIndex) <==> sel[0].name == "share" && sel[0].indexKey == "")
              && (AddressOf(sel).Ok? <==>
                    && sel[0].name in {"core", "protonfs", "share", "account", "drive", "lumo"}
                    && HasField(sel[0].name, sel[1].name) && !(sel[0].name == "share" && sel[0].indexKey == ""))
    ensures AddressOf(sel).Err? ==> AddressOf(sel).error in {TooShort, UnknownNamespace, MissingIndex, UnknownField}
  {
  }

  // ----- values -----

  /** Which texts are accepted where, and what becomes of them. */
  lemma Values(text: string, svc: string, id: string)
    ensures Accept(Prefetch, text) == match Atoi(text) case Some(n) => (if n >= 0 then Some(Itoa(n)) else None) case None => None
    ensures forall a | a in {Poll, Core(MaxJobs), Sub(svc, MaxJobs)} ::
              Accept(a, text) == match Atoi(text) case Some(n) => (if n >= 1 then Some(Itoa(n)) else None) case None => None
    ensures Accept(Mode, text) == if text in {"encrypted", "decrypted"} then Some(text) else None
    ensures Accept(Memory(id), text) == if text in {"disabled", "linkname", "metadata"} then Some(text) else None
    ensures Accept(Disk(id), text) == if text in {"disabled", "objectstore"} then Some(text) else None
    ensures forall a | a in {Core(Account), Core(AppVersion), Sub(svc, Account), Sub(svc, AppVersion)} ::
              Accept(a, text) == if text != "" then Some(text) else None
  {
  }

  /** A prefix matches at the end of the selector or before a dot. */
  lemma Prefixes(selector: string, prefix: string)
    ensures MatchPrefix(selector, prefix) <==> prefix == "" || selector == prefix || prefix + "." <= selector
  {
    if prefix != "" && prefix <= selector && |selector| > |prefix| {
      assert selector == prefix + selector[|prefix|..];
      assert selector[|prefix|] == '.' <==> prefix + "." <= selector;
    }
  }

  // ----- the order of a listing -----

  function Rank(a: Address): nat {
    match a
    case Core(f) => FieldRank(f)
    case Watermark => 3
    case Prefetch => 4
    case Mode => 5
    case Poll => 6
    case Sub(_, _) => 7
    case Memory(_) => 8
    case Disk(_) => 8
  }

  function FieldRank(f: Field): nat {
    match f case Account => 0 case AppVersion => 1 case MaxJobs => 2
  }

  /** a is listed before b: the top level first, then the services by name and the shares by
      identifier, in ascending order. */
  predicate Precedes(a: Address, b: Address) {
    || Rank(a) < Rank(b)
    || (a.Sub? && b.Sub? && a.svc != b.svc && Before(a.svc, b.svc))
    || (a.Sub? && b.Sub? && a.svc == b.svc && FieldRank(a.field) < FieldRank(b.field))
    || (Rank(a) == Rank(b) == 8 && a.id != b.id && Before(a.id, b.id))
    || (a.Memory? && b.Disk? && a.id == b.id)
  }

  ghost predicate Ascending(addrs: seq<Address>) {
    forall i, j | 0 <= i < j < |addrs| :: Precedes(addrs[i], addrs[j])
  }

  ghost predicate AscendingKeys(keys: seq<string>) {
    forall i, j | 0 <= i < j < |keys| :: Before(keys[i], keys[j]) && keys[i] != keys[j]
  }

  lemma AscendingAppend(x: seq<Address>, y: seq<Address>)
    requires Ascending(x) && Ascending(y) && forall a, b | a in x && b in y :: Precedes(a, b)
    ensures Ascending(x + y)
  {
    forall i, j | 0 <= i < j < |x + y| ensures Precedes((x + y)[i], (x + y)[j]) {
      if i < |x| && j >= |x| { assert x[i] in x && y[j - |x|] in y; }
    }
  }

  lemma {:induction false} ServicesAscend(svcs: seq<string>)
    requires AscendingKeys(svcs)
    ensures Ascending(SubAddresses(svcs))
  {
    if svcs != [] {
      var init, last := svcs[..|svcs| - 1], svcs[|svcs| - 1];
      ServicesAscend(init);
      SubMembers(init);
      forall a, b | a in SubAddresses(init) && b in ServiceAddresses(last) ensures Precedes(a, b) {
        var i :| 0 <= i < |init| && init[i] == a.svc;
        assert svcs[i] == a.svc;
      }
      AscendingAppend(SubAddresses(init), ServiceAddresses(last));
    }
  }

  lemma {:induction false} SharesAscend(ids: seq<string>)
    requires AscendingKeys(ids)
    ensures Ascending(ShareAddresses(ids))
  {
    if ids != [] {
      var init, last := ids[..|ids| - 1], ids[|ids| - 1];
      SharesAscend(init);
      ShareMembers(init);
      forall a, b | a in ShareAddresses(init) && b in [Memory(last), Disk(last)] ensures Precedes(a, b) {
        var i :| 0 <= i < |init| && init[i] == a.id;
        assert ids[i] == a.id;
      }
      AscendingAppend(ShareAddresses(init), [Memory(last), Disk(last)]);
    }
  }

  lemma SortedAscends(s: set<string>)
    ensures AscendingKeys(Sorted(s))
  {
    forall i, j | 0 <= i < j < |Sorted(s)| ensures Before(Sorted(s)[i], Sorted(s)[j]) && Sorted(s)[i] != Sorted(s)[j] {
      SortedOrder(s, i, j);
    }
  }

  lemma OrderAscends(view: Store)
    ensures Ascending(Order(view))
  {
    var subs, shares := SubAddresses(Sorted(Services(view))), ShareAddresses(Sorted(Ids(view)));
    SortedAscends(Services(view));
    SortedAscends(Ids(view));
    ServicesAscend(Sorted(Services(view)));
    SharesAscend(Sorted(Ids(view)));
    SubMembers(Sorted(Services(view)));
    ShareMembers(Sorted(Ids(view)));
    FixedFirst();
    AscendingAppend(FIXED, subs);
    AscendingAppend(FIXED + subs, shares);
  }

  lemma FixedFirst()
    ensures Ascending(FIXED) && forall a | a in FIXED :: Rank(a) < 7
  {
  }

  /** The addresses whose entries a listing shows. */
  function Listed(addrs: seq<Address>, view: Store): seq<Address> {
    if addrs == [] then []
    else Listed(addrs[..|addrs| - 1], view) + if addrs[|addrs| - 1] in view then [addrs[|addrs| - 1]] else []
  }

  lemma {:induction false} EntriesAreListed(addrs: seq<Address>, view: Store)
    requires Ascending(addrs)
    ensures var shown := Listed(addrs, view);
            && |Entries(addrs, view)| == |shown| && Ascending(shown)
            && (forall i | 0 <= i < |shown| :: shown[i] in view && Entries(addrs, view)[i] == Entry(Name(shown[i]), view[shown[i]]))
            && (forall a :: a in shown <==> a in addrs && a in view)
  {
    if addrs != [] {
      var init, last := addrs[..|addrs| - 1], addrs[|addrs| - 1];
      EntriesAreListed(init, view);
      assert addrs == init + [last];
      forall a | a in Listed(init, view) ensures Precedes(a, last) {
        var i :| 0 <= i < |init| && init[i] == a;
        assert addrs[i] == a;
      }
      if last in view { AscendingAppend(Listed(init, view), [last]); }
    }
  }

  /** A listing shows every address of the store once, with its selector and text, in ascending
      order. */
  lemma ListingInOrder(view: Store) returns (shown: seq<Address>)
    ensures |shown| == |Listing(view)| && Ascending(shown) && forall a :: a in shown <==> a in view
    ensures forall i | 0 <= i < |shown| :: shown[i] in view && Listing(view)[i] == Entry(Name(shown[i]), view[shown[i]])
  {
    OrderAscends(view);
    EntriesAreListed(Order(view), view);
    shown := Listed(Order(view), view);
    forall a | a in view ensures a in Order(view) { OrderCovers(view, a); }
  }
}
