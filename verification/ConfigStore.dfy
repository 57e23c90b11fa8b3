/** The configuration: typed parameters with their sources, per-subsystem overrides and
    per-share settings, addressed by selectors.

    The dispatching methods are proved against a keyed store: a map from addresses to the
    text of every value that came from the file.  Listing, replaying a listing and removing
    a prefix are then stated on that map. */
module ConfigStore {
  import opened Outcomes
  import opened Selectors
  import opened Decimal
  import opened SortedStrings

  // ----- data -----

  datatype Source = Unset | File | Cli

  datatype Param<T> = Param(value: T, dflt: T, source: Source) {
    function Effective(): T {
      if source == Unset then dflt else value
    }

    predicate IsSet() {
      source != Unset
    }

    function SetFile(v: T): Param<T> {
      Param(v, dflt, File)
    }

    function Reset(zero: T): Param<T> {
      Param(zero, dflt, Unset)
    }
  }

  datatype CoreConfig = CoreConfig(account: Param<string>, appVersion: Param<string>, maxJobs: Param<int>)

  datatype MemoryLevel = CacheDisabled | CacheLinkName | CacheMetadata

  datatype DiskLevel = DiskCacheDisabled | DiskCacheObjectStore

  datatype ShareConfig = ShareConfig(memory: MemoryLevel, disk: DiskLevel)

  datatype Field = Account | AppVersion | MaxJobs

  /** Where a value lives. */
  datatype Address =
    | Core(field: Field)
    | Watermark
    | Prefetch
    | Mode
    | Poll
    | Sub(svc: string, field: Field)
    | Memory(id: string)
    | Disk(id: string)

  datatype ConfigError = TooShort | UnknownNamespace | UnknownField | MissingIndex | BadValue | SaveFailed

  datatype Entry = Entry(selector: string, value: string)

  // ----- names -----

  const FIELDS: seq<Field> := [Account, AppVersion, MaxJobs]

  function FieldName(f: Field): string {
    match f
    case Account => "account"
    case AppVersion => "app_version"
    case MaxJobs => "max_jobs"
  }

  function FieldNamed(name: string): Option<Field> {
    if name == "account" then Some(Account)
    else if name == "app_version" then Some(AppVersion)
    else if name == "max_jobs" then Some(MaxJobs)
    else None
  }

  /** The service registry. */
  predicate IsService(name: string) {
    name == "account" || name == "drive" || name == "lumo"
  }

  function MemoryText(m: MemoryLevel): string {
    match m
    case CacheDisabled => "disabled"
    case CacheLinkName => "linkname"
    case CacheMetadata => "metadata"
  }

  function MemoryNamed(s: string): Option<MemoryLevel> {
    if s == "disabled" then Some(CacheDisabled)
    else if s == "linkname" then Some(CacheLinkName)
    else if s == "metadata" then Some(CacheMetadata)
    else None
  }

  function DiskText(d: DiskLevel): string {
    match d
    case DiskCacheDisabled => "disabled"
    case DiskCacheObjectStore => "objectstore"
  }

  function DiskNamed(s: string): Option<DiskLevel> {
    if s == "disabled" then Some(DiskCacheDisabled)
    else if s == "objectstore" then Some(DiskCacheObjectStore)
    else None
  }

  function Plain(name: string): Segment {
    Segment(name, "", "")
  }

  function SelectorOf(a: Address): seq<Segment> {
    match a
    case Core(f) => [Plain("core"), Plain(FieldName(f))]
    case Watermark => [Plain("core"), Plain("memory_cache_watermark")]
    case Prefetch => [Plain("protonfs"), Plain("prefetch_blocks")]
    case Mode => [Plain("protonfs"), Plain("block_cache_mode")]
    case Poll => [Plain("protonfs"), Plain("event_poll_interval")]
    case Sub(svc, f) => [Plain(svc), Plain(FieldName(f))]
    case Memory(id) => [Segment("share", "id", id), Plain("memory_cache")]
    case Disk(id) => [Segment("share", "id", id), Plain("disk_cache")]
  }

  /** The selector text a listing shows for an address. */
  function Name(a: Address): string {
    match a
    case Core(f) => "core." + FieldName(f)
    case Watermark => "core.memory_cache_watermark"
    case Prefetch => "protonfs.prefetch_blocks"
    case Mode => "protonfs.block_cache_mode"
    case Poll => "protonfs.event_poll_interval"
    case Sub(svc, f) => svc + "." + FieldName(f)
    case Memory(id) => "share[id=" + id + "].memory_cache"
    case Disk(id) => "share[id=" + id + "].disk_cache"
  }

  /** The address a parsed selector denotes; extra segments and other indexes are ignored. */
  function AddressOf(sel: seq<Segment>): Result<Address, ConfigError> {
    if |sel| < 2 then Err(TooShort)
    else
      var ns, field := sel[0].name, sel[1].name;
      if ns == "core" then
        if field == "memory_cache_watermark" then Ok(Watermark)
        else match FieldNamed(field) { case Some(f) => Ok(Core(f)) case None => Err(UnknownField) }
      else if ns == "protonfs" then
        if field == "prefetch_blocks" then Ok(Prefetch)
        else if field == "block_cache_mode" then Ok(Mode)
        else if field == "event_poll_interval" then Ok(Poll)
        else Err(UnknownField)
      else if ns == "share" then
        if sel[0].indexKey == "" then Err(MissingIndex)
        else if field == "memory_cache" then Ok(Memory(sel[0].indexVal))
        else if field == "disk_cache" then Ok(Disk(sel[0].indexVal))
        else Err(UnknownField)
      else if !IsService(ns) then Err(UnknownNamespace)
      else match FieldNamed(field) { case Some(f) => Ok(Sub(ns, f)) case None => Err(UnknownField) }
  }

  /** An address a parsed selector can denote. */
  predicate Addressable(a: Address) {
    match a
    case Sub(svc, _) => IsService(svc)
    case Memory(id) => id != "" && ']' !in id
    case Disk(id) => id != "" && ']' !in id
    case _ => true
  }

  /** A listed selector parses back to the address it was listed for. */
  lemma NameRoundTrip(a: Address)
    requires Addressable(a)
    ensures Parse(Name(a)) == Ok(SelectorOf(a))
    ensures AddressOf(SelectorOf(a)) == Ok(a)
  {
    NameIsPrinted(a);
    SelectorIsWellFormed(a);
    ParsePrintRoundTrip(SelectorOf(a));
    AddressOfSelector(a);
  }

  lemma AddressOfSelector(a: Address)
    requires Addressable(a)
    ensures AddressOf(SelectorOf(a)) == Ok(a)
  {
    if a.Core? || a.Sub? { FieldNameRoundTrip(a.field); }
  }

  lemma FieldNameRoundTrip(f: Field)
    ensures FieldNamed(FieldName(f)) == Some(f)
    ensures FieldName(f) != "memory_cache_watermark"
  {
  }

  lemma PrintPair(first: Segment, name: string)
    ensures Print([first, Plain(name)]) == SegmentString(first) + "." + name
  {
    assert [first, Plain(name)][1..] == [Plain(name)];
  }

  lemma NameIsPrinted(a: Address)
    ensures Name(a) == Print(SelectorOf(a))
  {
    match a
    case Core(f) => PrintPair(Plain("core"), FieldName(f)); assert "core" + "." == "core.";
    case Sub(svc, f) => PrintPair(Plain(svc), FieldName(f));
    case Watermark => PrintPair(Plain("core"), "memory_cache_watermark"); LiteralNames();
    case Prefetch => PrintPair(Plain("protonfs"), "prefetch_blocks"); LiteralNames();
    case Mode => PrintPair(Plain("protonfs"), "block_cache_mode"); LiteralNames();
    case Poll => PrintPair(Plain("protonfs"), "event_poll_interval"); LiteralNames();
    case Memory(id) => PrintPair(Segment("share", "id", id), "memory_cache"); ShareNames(id);
    case Disk(id) => PrintPair(Segment("share", "id", id), "disk_cache"); ShareNames(id);
  }

  lemma LiteralNames()
    ensures "core" + "." + "memory_cache_watermark" == "core.memory_cache_watermark"
    ensures "protonfs" + "." + "prefetch_blocks" == "protonfs.prefetch_blocks"
    ensures "protonfs" + "." + "block_cache_mode" == "protonfs.block_cache_mode"
    ensures "protonfs" + "." + "event_poll_interval" == "protonfs.event_poll_interval"
  {
  }

  lemma ShareNames(id: string)
    ensures "share" + ("[" + IndexText("id", id)) + "." + "memory_cache" == "share[id=" + id + "].memory_cache"
    ensures "share" + ("[" + IndexText("id", id)) + "." + "disk_cache" == "share[id=" + id + "].disk_cache"
  {
    assert "share" + ("[" + ("id" + "=")) == "share[id=";
    assert "share" + ("[" + IndexText("id", id)) == "share[id=" + id + "]";
    assert "]" + "." + "memory_cache" == "].memory_cache";
    assert "]" + "." + "disk_cache" == "].disk_cache";
  }

  lemma SelectorIsWellFormed(a: Address)
    requires Addressable(a)
    ensures WellFormed(SelectorOf(a))
  {
    ShortWords();
    LongWords();
    var sel := SelectorOf(a);
    assert IsIdentifier(sel[0].name) && IsIdentifier(sel[1].name);
  }

  lemma ShortWords()
    ensures IsIdentifier("core") && IsIdentifier("share") && IsIdentifier("drive") && IsIdentifier("lumo")
    ensures IsIdentifier("account") && IsIdentifier("max_jobs") && IsIdentifier("protonfs")
  {
  }

  lemma LongWords()
    ensures IsIdentifier("memory_cache_watermark") && IsIdentifier("prefetch_blocks")
    ensures IsIdentifier("block_cache_mode") && IsIdentifier("event_poll_interval")
    ensures IsIdentifier("app_version") && IsIdentifier("memory_cache") && IsIdentifier("disk_cache")
  {
    LongWord("memory_cache_watermark");
    LongWord("block_cache_mode");
    LongWord("event_poll_interval");
    OtherWords();
  }

  lemma OtherWords()
    ensures IsIdentifier("prefetch_blocks") && IsIdentifier("app_version")
    ensures IsIdentifier("memory_cache") && IsIdentifier("disk_cache")
  {
    LongWord("prefetch_blocks");
    LongWord("app_version");
    LongWord("memory_cache");
    LongWord("disk_cache");
  }

  lemma LongWord(s: string)
    requires s != "" && IsIdentStart(s[0]) && forall c | c in s[1..] :: IsIdentCont(c)
    ensures IsIdentifier(s)
  {
    forall k | 1 <= k < |s| ensures IsIdentCont(s[k]) { assert s[k] == s[1..][k - 1]; }
  }

  // ----- values -----

  /** The text a value is stored and listed under, when the text is acceptable at a. */
  function Accept(a: Address, text: string): Option<string> {
    match a
    case Watermark => (match ParseRange(text) { case Some((lo, hi)) => Some(FormatRange(lo, hi)) case None => None })
    case Prefetch => (match Atoi(text) { case Some(n) => if n >= 0 then Some(Itoa(n)) else None case None => None })
    case Mode => if text == "encrypted" || text == "decrypted" then Some(text) else None
    case Poll => AcceptPositive(text)
    case Memory(_) => if MemoryNamed(text).Some? then Some(text) else None
    case Disk(_) => if DiskNamed(text).Some? then Some(text) else None
    case Core(f) => AcceptField(f, text)
    case Sub(_, f) => AcceptField(f, text)
  }

  function AcceptPositive(text: string): Option<string> {
    match Atoi(text)
    case Some(n) => if n > 0 then Some(Itoa(n)) else None
    case None => None
  }

  function AcceptField(f: Field, text: string): Option<string> {
    if f == MaxJobs then AcceptPositive(text) else if text != "" then Some(text) else None
  }

  /** What is stored is acceptable again, unchanged. */
  lemma AcceptIdempotent(a: Address, text: string)
    requires Accept(a, text).Some?
    ensures Accept(a, Accept(a, text).value) == Accept(a, text)
  {
    AtoiRange(text);
    if Atoi(text).Some? { AtoiItoa(Atoi(text).value); }
    if a.Watermark? {
      var (lo, hi) := ParseRange(text).value;
      ParseRangeBounds(text);
      RangeRoundTrip(lo, hi);
    }
  }

  // ----- the keyed store -----

  type Store = map<Address, string>

  /** A share setting of "disabled" is the same as no setting. */
  ghost function Put(view: Store, a: Address, v: string): Store {
    if (a.Memory? || a.Disk?) && v == "disabled" then view - {a} else view[a := v]
  }

  /** Every stored text is at an addressable place, acceptable, and not the silent one. */
  ghost predicate Canonical(view: Store) {
    forall a | a in view ::
      && Addressable(a) && Accept(a, view[a]) == Some(view[a])
      && !((a.Memory? || a.Disk?) && view[a] == "disabled")
  }

  lemma PutKeepsCanonical(view: Store, a: Address, text: string)
    requires Canonical(view) && Addressable(a) && Accept(a, text).Some?
    ensures Canonical(Put(view, a, Accept(a, text).value))
  {
    AcceptIdempotent(a, text);
  }

  // ----- listings -----

  function SubAddresses(svcs: seq<string>): seq<Address> {
    if svcs == [] then [] else SubAddresses(svcs[..|svcs| - 1]) + ServiceAddresses(svcs[|svcs| - 1])
  }

  function ServiceAddresses(svc: string): seq<Address> {
    [Sub(svc, Account), Sub(svc, AppVersion), Sub(svc, MaxJobs)]
  }

  function ShareAddresses(ids: seq<string>): seq<Address> {
    if ids == [] then [] else ShareAddresses(ids[..|ids| - 1]) + [Memory(ids[|ids| - 1]), Disk(ids[|ids| - 1])]
  }

  const FIXED: seq<Address> :=
    [Core(Account), Core(AppVersion), Core(MaxJobs), Watermark, Prefetch, Mode, Poll]

  function Entries(addrs: seq<Address>, view: Store): seq<Entry> {
    if addrs == [] then []
    else Entries(addrs[..|addrs| - 1], view) + EntryAt(addrs[|addrs| - 1], view)
  }

  function EntryAt(a: Address, view: Store): seq<Entry> {
    if a in view then [Entry(Name(a), view[a])] else []
  }

  ghost function Services(view: Store): set<string> {
    set a | a in view && a.Sub? :: a.svc
  }

  ghost function Ids(view: Store): set<string> {
    set a | a in view && (a.Memory? || a.Disk?) :: a.id
  }

  /** Every address of the store, in the order a listing shows them. */
  ghost function Order(view: Store): seq<Address> {
    FIXED + SubAddresses(Sorted(Services(view))) + ShareAddresses(Sorted(Ids(view)))
  }

  ghost function Listing(view: Store): seq<Entry> {
    Entries(Order(view), view)
  }

  lemma {:induction false} EntriesAppend(x: seq<Address>, y: seq<Address>, view: Store)
    ensures Entries(x + y, view) == Entries(x, view) + Entries(y, view)
  {
    if y == [] {
      assert x + y == x;
    } else {
      assert (x + y)[..|x + y| - 1] == x + y[..|y| - 1];
      EntriesAppend(x, y[..|y| - 1], view);
    }
  }

  lemma {:induction false} SubMembers(svcs: seq<string>)
    ensures forall a :: a in SubAddresses(svcs) <==> a.Sub? && a.svc in svcs
  {
    if svcs != [] {
      var init := svcs[..|svcs| - 1];
      SubMembers(init);
      assert svcs == init + [svcs[|svcs| - 1]];
      forall a: Address | a.Sub? ensures a in ServiceAddresses(a.svc) {
        match a.field case Account => case AppVersion => case MaxJobs =>
      }
    }
  }

  lemma {:induction false} ShareMembers(ids: seq<string>)
    ensures forall a :: a in ShareAddresses(ids) <==> (a.Memory? || a.Disk?) && a.id in ids
  {
    if ids != [] {
      var init := ids[..|ids| - 1];
      ShareMembers(init);
      assert ids == init + [ids[|ids| - 1]];
    }
  }

  lemma OrderCovers(view: Store, a: Address)
    requires a in view
    ensures a in Order(view)
  {
    SubMembers(Sorted(Services(view)));
    ShareMembers(Sorted(Ids(view)));
    SortedMembers(Services(view));
    SortedMembers(Ids(view));
    if a.Core? { match a.field case Account => case AppVersion => case MaxJobs => }
    if !a.Sub? && !a.Memory? && !a.Disk? { assert a in FIXED; }
    if a.Sub? { assert a.svc in Services(view); assert a in SubAddresses(Sorted(Services(view))); }
    if a.Memory? || a.Disk? { assert a.id in Ids(view); assert a in ShareAddresses(Sorted(Ids(view))); }
  }

  /** A listing does not depend on keys that hold nothing. */
  lemma {:induction false} SilentServices(k: set<string>, view: Store)
    requires Services(view) <= k
    ensures Entries(SubAddresses(Sorted(k)), view) == Entries(SubAddresses(Sorted(Services(view))), view)
  {
    SilentSubs(Sorted(k), view, Services(view));
    SilentSubs(Sorted(Services(view)), view, Services(view));
    SortedKeep(k, Services(view));
    SortedKeep(Services(view), Services(view));
    assert k * Services(view) == Services(view) * Services(view);
  }

  function Keep(keys: seq<string>, s: set<string>): seq<string> {
    if keys == [] then []
    else Keep(keys[..|keys| - 1], s) + if keys[|keys| - 1] in s then [keys[|keys| - 1]] else []
  }

  lemma {:induction false} KeepCons(k: string, keys: seq<string>, s: set<string>)
    ensures Keep([k] + keys, s) == (if k in s then [k] else []) + Keep(keys, s)
  {
    if keys == [] {
      assert [k] + keys == [k];
      assert [k][..0] == [];
    } else {
      assert ([k] + keys)[..|keys|] == [k] + keys[..|keys| - 1];
      KeepCons(k, keys[..|keys| - 1], s);
    }
  }

  /** Picking the keys of s out of a sorted list sorts those keys. */
  lemma {:induction false} SortedKeep(k: set<string>, s: set<string>)
    ensures Keep(Sorted(k), s) == Sorted(k * s)
    decreases k
  {
    if k == {} {
      assert k * s == {};
    } else {
      var m := Least(k);
      KeepCons(m, Sorted(k - {m}), s);
      SortedKeep(k - {m}, s);
      if m in s {
        LeastUnique(m, k * s);
        assert k * s - {m} == (k - {m}) * s;
      } else {
        assert k * s == (k - {m}) * s;
      }
    }
  }

  lemma {:induction false} SilentSubs(svcs: seq<string>, view: Store, s: set<string>)
    requires s == Services(view)
    ensures Entries(SubAddresses(svcs), view) == Entries(SubAddresses(Keep(svcs, s)), view)
  {
    if svcs != [] {
      var init, last := svcs[..|svcs| - 1], svcs[|svcs| - 1];
      SilentSubs(init, view, s);
      EntriesAppend(SubAddresses(init), ServiceAddresses(last), view);
      if last in s {
        assert Keep(svcs, s)[..|Keep(svcs, s)| - 1] == Keep(init, s);
        EntriesAppend(SubAddresses(Keep(init, s)), ServiceAddresses(last), view);
      } else {
        assert forall f :: Sub(last, f) !in view;
        ServiceEntries(last, view);
        assert Keep(svcs, s) == Keep(init, s);
      }
    }
  }

  lemma ServiceEntries(svc: string, view: Store)
    ensures Entries(ServiceAddresses(svc), view) ==
            EntryAt(Sub(svc, Account), view) + EntryAt(Sub(svc, AppVersion), view) + EntryAt(Sub(svc, MaxJobs), view)
  {
    Entries3(Sub(svc, Account), Sub(svc, AppVersion), Sub(svc, MaxJobs), view);
  }

  lemma EntriesOne(a: Address, view: Store)
    ensures Entries([a], view) == EntryAt(a, view)
  {
    assert [a][..0] == [];
  }

  lemma {:induction false} SilentShares(ids: seq<string>, view: Store, s: set<string>)
    requires s == Ids(view)
    ensures Entries(ShareAddresses(ids), view) == Entries(ShareAddresses(Keep(ids, s)), view)
  {
    if ids != [] {
      var init, last := ids[..|ids| - 1], ids[|ids| - 1];
      SilentShares(init, view, s);
      EntriesAppend(ShareAddresses(init), [Memory(last), Disk(last)], view);
      if last in s {
        assert Keep(ids, s)[..|Keep(ids, s)| - 1] == Keep(init, s);
        EntriesAppend(ShareAddresses(Keep(init, s)), [Memory(last), Disk(last)], view);
      } else {
        assert Memory(last) !in view && Disk(last) !in view;
        ShareEntries(last, view);
        assert Keep(ids, s) == Keep(init, s);
      }
    }
  }

  lemma ShareEntries(id: string, view: Store)
    ensures Entries([Memory(id), Disk(id)], view) == EntryAt(Memory(id), view) + EntryAt(Disk(id), view)
  {
    EntriesOne(Memory(id), view);
    EntriesOne(Disk(id), view);
    EntriesAppend([Memory(id)], [Disk(id)], view);
    assert [Memory(id), Disk(id)] == [Memory(id)] + [Disk(id)];
  }

  lemma SilentIds(k: set<string>, view: Store)
    requires Ids(view) <= k
    ensures Entries(ShareAddresses(Sorted(k)), view) == Entries(ShareAddresses(Sorted(Ids(view))), view)
  {
    SilentShares(Sorted(k), view, Ids(view));
    SilentShares(Sorted(Ids(view)), view, Ids(view));
    SortedKeep(k, Ids(view));
    SortedKeep(Ids(view), Ids(view));
    assert k * Ids(view) == Ids(view) * Ids(view);
  }

  lemma Entries3(a: Address, b: Address, c: Address, view: Store)
    ensures Entries([a, b, c], view) == EntryAt(a, view) + EntryAt(b, view) + EntryAt(c, view)
  {
    EntriesOne(a, view);
    EntriesSnoc([a], b, view);
    EntriesSnoc([a] + [b], c, view);
    assert [a, b, c] == [a] + [b] + [c];
  }

  lemma EntriesSnoc(addrs: seq<Address>, a: Address, view: Store)
    ensures Entries(addrs + [a], view) == Entries(addrs, view) + EntryAt(a, view)
  {
    assert (addrs + [a])[..|addrs|] == addrs;
  }

  /** The listing may run over any keys that include those of the store. */
  lemma ListingOver(view: Store, svcs: set<string>, ids: set<string>)
    requires Services(view) <= svcs && Ids(view) <= ids
    ensures Listing(view) == Entries(FIXED, view) + Entries(SubAddresses(Sorted(svcs)), view)
                             + Entries(ShareAddresses(Sorted(ids)), view)
  {
    SilentServices(svcs, view);
    SilentIds(ids, view);
    EntriesAppend(FIXED + SubAddresses(Sorted(Services(view))), ShareAddresses(Sorted(Ids(view))), view);
    EntriesAppend(FIXED, SubAddresses(Sorted(Services(view))), view);
  }

  // ----- replaying a listing, removing a prefix -----

  /** Applies entries in order, each through the parser; None when one is refused. */
  ghost function Replay(view: Store, entries: seq<Entry>): Option<Store> {
    if entries == [] then Some(view)
    else
      match Replay(view, entries[..|entries| - 1])
      case None => None
      case Some(v) => Apply(v, entries[|entries| - 1])
  }

  /** One Parse and Set. */
  ghost function Apply(view: Store, e: Entry): Option<Store> {
    match Parse(e.selector)
    case Err(_) => None
    case Ok(sel) =>
      match AddressOf(sel)
      case Err(_) => None
      case Ok(a) => if Accept(a, e.value).Some? then Some(Put(view, a, Accept(a, e.value).value)) else None
  }

  ghost function Restrict(view: Store, addrs: seq<Address>): Store {
    map a | a in view && a in addrs :: view[a]
  }

  lemma ReplayOne(store: Store, view: Store, a: Address)
    requires Canonical(view) && a in view
    ensures Apply(store, Entry(Name(a), view[a])) == Some(store[a := view[a]])
  {
    NameRoundTrip(a);
  }

  lemma ReplaySnoc(entries: seq<Entry>, e: Entry, store: Store)
    requires Replay(map[], entries) == Some(store)
    ensures Replay(map[], entries + [e]) == Apply(store, e)
  {
    assert (entries + [e])[..|entries|] == entries;
  }

  lemma RestrictSnoc(view: Store, addrs: seq<Address>, a: Address)
    ensures Restrict(view, addrs + [a]) ==
            if a in view then Restrict(view, addrs)[a := view[a]] else Restrict(view, addrs)
  {
  }

  lemma {:induction false} ReplayEntries(addrs: seq<Address>, view: Store)
    requires Canonical(view)
    ensures Replay(map[], Entries(addrs, view)) == Some(Restrict(view, addrs))
  {
    if addrs == [] {
      assert Restrict(view, []) == map[];
    } else {
      var init, a := addrs[..|addrs| - 1], addrs[|addrs| - 1];
      var entries := Entries(init, view);
      ReplayEntries(init, view);
      assert addrs == init + [a];
      RestrictSnoc(view, init, a);
      EntriesSnoc(init, a, view);
      if a in view {
        ReplaySnoc(entries, Entry(Name(a), view[a]), Restrict(view, init));
        ReplayOne(Restrict(view, init), view, a);
      } else {
        assert entries + [] == entries;
      }
    }
  }

  /** Replaying a listing on an empty store rebuilds the store. */
  lemma ReplayListing(view: Store)
    requires Canonical(view)
    ensures Replay(map[], Listing(view)) == Some(view)
  {
    ReplayEntries(Order(view), view);
    forall a | a in view ensures a in Order(view) { OrderCovers(view, a); }
    assert Restrict(view, Order(view)) == view;
  }

  /** Complete-segment prefix matching. */
  predicate MatchPrefix(selector: string, prefix: string) {
    prefix == "" || (prefix <= selector && (|selector| == |prefix| || selector[|prefix|] == '.'))
  }

  ghost function Unmatched(view: Store, prefix: string): Store {
    map a | a in view && !MatchPrefix(Name(a), prefix) :: view[a]
  }

  function FilterOut(entries: seq<Entry>, prefix: string): seq<Entry> {
    if entries == [] then []
    else FilterOut(entries[..|entries| - 1], prefix)
         + if MatchPrefix(entries[|entries| - 1].selector, prefix) then [] else [entries[|entries| - 1]]
  }

  lemma {:induction false} FilterEntries(addrs: seq<Address>, view: Store, prefix: string)
    ensures Entries(addrs, Unmatched(view, prefix)) == FilterOut(Entries(addrs, view), prefix)
  {
    if addrs != [] {
      var init, a := addrs[..|addrs| - 1], addrs[|addrs| - 1];
      FilterEntries(init, view, prefix);
      var all := Entries(addrs, view);
      if a in view {
        assert all[..|all| - 1] == Entries(init, view);
      } else {
        assert all == Entries(init, view);
      }
      assert EntryAt(a, Unmatched(view, prefix)) == FilterOut(EntryAt(a, view), prefix);
    }
  }

  /** Removing what matches a prefix from the store filters the listing. */
  lemma FilterListing(view: Store, prefix: string)
    ensures Listing(Unmatched(view, prefix)) == FilterOut(Listing(view), prefix)
  {
    var less := Unmatched(view, prefix);
    FilterEntries(Order(view), view, prefix);
    ListingOver(less, Services(view), Ids(view));
    EntriesAppend(FIXED + SubAddresses(Sorted(Services(view))), ShareAddresses(Sorted(Ids(view))), less);
    EntriesAppend(FIXED, SubAddresses(Sorted(Services(view))), less);
  }

  // ----- the configuration object -----

  /** A snapshot of all fields. */
  datatype ConfigState = ConfigState(
    core: CoreConfig,
    watermark: Param<(int, int)>,
    prefetch: Param<int>,
    mode: Param<string>,
    poll: Param<int>,
    shares: map<string, ShareConfig>,
    subsystems: map<string, CoreConfig>)

  function FieldSource(cc: CoreConfig, f: Field): Source {
    match f
    case Account => cc.account.source
    case AppVersion => cc.appVersion.source
    case MaxJobs => cc.maxJobs.source
  }

  function FieldText(cc: CoreConfig, f: Field): string {
    match f
    case Account => cc.account.Effective()
    case AppVersion => cc.appVersion.Effective()
    case MaxJobs => Itoa(cc.maxJobs.Effective())
  }

  function FieldSet(cc: CoreConfig, f: Field, text: string): CoreConfig
    requires AcceptField(f, text).Some?
  {
    match f
    case Account => cc.(account := cc.account.SetFile(text))
    case AppVersion => cc.(appVersion := cc.appVersion.SetFile(text))
    case MaxJobs => cc.(maxJobs := cc.maxJobs.SetFile(Atoi(text).value))
  }

  function FieldReset(cc: CoreConfig, f: Field): CoreConfig {
    match f
    case Account => cc.(account := cc.account.Reset(""))
    case AppVersion => cc.(appVersion := cc.appVersion.Reset(""))
    case MaxJobs => cc.(maxJobs := cc.maxJobs.Reset(0))
  }

  function FreshCore(workers: int): CoreConfig {
    CoreConfig(Param("", "default", Unset), Param("", "", Unset), Param(0, workers, Unset))
  }

  function FromFile(source: Source, text: string): Option<string> {
    if source == File then Some(text) else None
  }

  /** The text stored at an address, if its value came from the file. */
  function Stored(st: ConfigState, a: Address): Option<string> {
    match a
    case Core(f) => FromFile(FieldSource(st.core, f), FieldText(st.core, f))
    case Watermark =>
      FromFile(st.watermark.source, FormatRange(st.watermark.Effective().0, st.watermark.Effective().1))
    case Prefetch => FromFile(st.prefetch.source, Itoa(st.prefetch.Effective()))
    case Mode => FromFile(st.mode.source, st.mode.Effective())
    case Poll => FromFile(st.poll.source, Itoa(st.poll.Effective()))
    case Sub(svc, f) =>
      if svc in st.subsystems then FromFile(FieldSource(st.subsystems[svc], f), FieldText(st.subsystems[svc], f))
      else None
    case Memory(id) =>
      if id in st.shares && st.shares[id].memory != CacheDisabled then Some(MemoryText(st.shares[id].memory)) else None
    case Disk(id) =>
      if id in st.shares && st.shares[id].disk != DiskCacheDisabled then Some(DiskText(st.shares[id].disk)) else None
  }

  /** What is set at an address: where it came from and its text. */
  datatype Slot = Slot(origin: Source, text: string)

  const NOTHING: Slot := Slot(Unset, "")

  function Held(source: Source, text: string): Slot {
    if source == Unset then NOTHING else Slot(source, text)
  }

  function FieldAt(cc: CoreConfig, f: Field): Slot {
    match f
    case Account => Held(cc.account.source, cc.account.value)
    case AppVersion => Held(cc.appVersion.source, cc.appVersion.value)
    case MaxJobs => Held(cc.maxJobs.source, Itoa(cc.maxJobs.value))
  }

  /** The value set at an address, by the file or the command line. */
  function At(st: ConfigState, a: Address): Slot {
    match a
    case Core(f) => FieldAt(st.core, f)
    case Watermark => Held(st.watermark.source, FormatRange(st.watermark.value.0, st.watermark.value.1))
    case Prefetch => Held(st.prefetch.source, Itoa(st.prefetch.value))
    case Mode => Held(st.mode.source, st.mode.value)
    case Poll => Held(st.poll.source, Itoa(st.poll.value))
    case Sub(svc, f) => if svc in st.subsystems then FieldAt(st.subsystems[svc], f) else NOTHING
    case Memory(id) =>
      if id in st.shares && st.shares[id].memory != CacheDisabled then Slot(File, MemoryText(st.shares[id].memory)) else NOTHING
    case Disk(id) =>
      if id in st.shares && st.shares[id].disk != DiskCacheDisabled then Slot(File, DiskText(st.shares[id].disk)) else NOTHING
  }

  lemma StoredIsFromFile(st: ConfigState, a: Address)
    ensures Stored(st, a) == if At(st, a).origin == File then Some(At(st, a).text) else None
  {
  }

  /** The compiled defaults of the top level. */
  datatype Defaults = Defaults(account: string, appVersion: string, maxJobs: int, watermark: (int, int),
                               prefetch: int, mode: string, poll: int)

  function DefaultsOf(st: ConfigState): Defaults {
    Defaults(st.core.account.dflt, st.core.appVersion.dflt, st.core.maxJobs.dflt, st.watermark.dflt,
             st.prefetch.dflt, st.mode.dflt, st.poll.dflt)
  }

  /** The text of the default for an address; a service has the defaults of the top level. */
  function DefaultText(d: Defaults, a: Address): string {
    match a
    case Core(f) => DefaultField(d, f)
    case Watermark => FormatRange(d.watermark.0, d.watermark.1)
    case Prefetch => Itoa(d.prefetch)
    case Mode => d.mode
    case Poll => Itoa(d.poll)
    case Sub(_, f) => DefaultField(d, f)
    case Memory(_) => "disabled"
    case Disk(_) => "disabled"
  }

  function DefaultField(d: Defaults, f: Field): string {
    match f
    case Account => d.account
    case AppVersion => d.appVersion
    case MaxJobs => Itoa(d.maxJobs)
  }

  /** The text in effect at an address: the value set there, for a service else the one set for
      the core, else the default. */
  function InEffect(st: ConfigState, place: Result<Address, ConfigError>): Result<string, ConfigError> {
    match place
    case Err(e) => Err(e)
    case Ok(a) =>
      if At(st, a) != NOTHING then Ok(At(st, a).text)
      else if a.Sub? && At(st, Core(a.field)) != NOTHING then Ok(At(st, Core(a.field)).text)
      else Ok(DefaultText(DefaultsOf(st), a))
  }

  ghost function Candidates(st: ConfigState): set<Address> {
    (set a | a in FIXED)
    + (set svc, f | svc in st.subsystems && f in FIELDS :: Sub(svc, f))
    + (set id | id in st.shares :: Memory(id))
    + (set id | id in st.shares :: Disk(id))
  }

  /** The keyed store a configuration stands for. */
  ghost function View(st: ConfigState): Store {
    map a | a in Candidates(st) && Stored(st, a).Some? :: Stored(st, a).value
  }

  lemma ViewHolds(st: ConfigState, a: Address)
    ensures a in View(st) <==> Stored(st, a).Some?
    ensures a in View(st) ==> View(st)[a] == Stored(st, a).value
  {
    if Stored(st, a).Some? {
      match a
      case Core(f) => assert a in FIXED by { match f case Account => case AppVersion => case MaxJobs => }
      case Sub(svc, f) => assert f in FIELDS by { match f case Account => case AppVersion => case MaxJobs => }
      case Memory(id) =>
      case Disk(id) =>
      case _ => assert a in FIXED;
    }
  }

  /** At one address something else is set now; all others and the defaults are as before. */
  ghost predicate Differs(st: ConfigState, st': ConfigState, a: Address, now: Slot) {
    && At(st', a) == now && DefaultsOf(st') == DefaultsOf(st)
    && forall b | b != a :: At(st', b) == At(st, b)
  }

  /** What is set after accepting a text; "disabled" turns a share setting off. */
  function Accepted(a: Address, v: string): Slot {
    if (a.Memory? || a.Disk?) && v == "disabled" then NOTHING else Slot(File, v)
  }

  lemma ViewAfterPut(st: ConfigState, st': ConfigState, a: Address, v: string)
    requires Differs(st, st', a, Accepted(a, v))
    ensures View(st') == Put(View(st), a, v)
  {
    forall b ensures b in View(st') <==> b in Put(View(st), a, v)
             ensures b in View(st') ==> View(st')[b] == Put(View(st), a, v)[b]
    {
      ViewHolds(st, b);
      ViewHolds(st', b);
      StoredIsFromFile(st, b);
      StoredIsFromFile(st', b);
    }
  }

  lemma ViewAfterRemove(st: ConfigState, st': ConfigState, a: Address)
    requires Differs(st, st', a, NOTHING)
    ensures View(st') == View(st) - {a}
  {
    forall b ensures b in View(st') <==> b in View(st) - {a}
             ensures b in View(st') ==> View(st')[b] == (View(st) - {a})[b]
    {
      ViewHolds(st, b);
      ViewHolds(st', b);
      StoredIsFromFile(st, b);
      StoredIsFromFile(st', b);
    }
  }

  /** What each namespace's setter promises: an error and no change, or exactly one change. */
  ghost predicate SetAt(st: ConfigState, st': ConfigState, sel: seq<Segment>, value: string, err: Option<ConfigError>) {
    match AddressOf(sel)
    case Err(e) => err == Some(e) && st' == st
    case Ok(a) =>
      match Accept(a, value)
      case None => err == Some(BadValue) && st' == st
      case Some(v) => err == None && Differs(st, st', a, Accepted(a, v))
  }

  ghost predicate UnsetAt(st: ConfigState, st': ConfigState, sel: seq<Segment>, err: Option<ConfigError>) {
    match AddressOf(sel)
    case Err(e) => err == Some(e) && st' == st
    case Ok(a) => err == None && Differs(st, st', a, NOTHING)
  }

  lemma FieldChanges(cc: CoreConfig, f: Field, text: string, g: Field)
    requires AcceptField(f, text).Some?
    ensures FieldAt(FieldSet(cc, f, text), g) == if g == f then Slot(File, AcceptField(f, text).value) else FieldAt(cc, g)
  {
  }

  lemma CoreFieldChanges(st: ConfigState, f: Field, text: string)
    requires AcceptField(f, text).Some?
    ensures Differs(st, st.(core := FieldSet(st.core, f, text)), Core(f), Slot(File, AcceptField(f, text).value))
  {
    forall g { FieldChanges(st.core, f, text, g); }
  }

  lemma WatermarkChanges(st: ConfigState, v: (int, int))
    ensures Differs(st, st.(watermark := st.watermark.SetFile(v)), Watermark, Slot(File, FormatRange(v.0, v.1)))
  {
  }

  lemma PrefetchChanges(st: ConfigState, n: int)
    ensures Differs(st, st.(prefetch := st.prefetch.SetFile(n)), Prefetch, Slot(File, Itoa(n)))
  {
  }

  lemma ModeChanges(st: ConfigState, v: string)
    ensures Differs(st, st.(mode := st.mode.SetFile(v)), Mode, Slot(File, v))
  {
  }

  lemma PollChanges(st: ConfigState, n: int)
    ensures Differs(st, st.(poll := st.poll.SetFile(n)), Poll, Slot(File, Itoa(n)))
  {
  }

  lemma SubFieldChanges(st: ConfigState, svc: string, f: Field, text: string, workers: int)
    requires AcceptField(f, text).Some?
    ensures var subs := if svc in st.subsystems then st.subsystems else st.subsystems[svc := FreshCore(workers)];
            Differs(st, st.(subsystems := subs[svc := FieldSet(subs[svc], f, text)]), Sub(svc, f),
                    Slot(File, AcceptField(f, text).value))
  {
    var subs := if svc in st.subsystems then st.subsystems else st.subsystems[svc := FreshCore(workers)];
    forall g { FieldChanges(subs[svc], f, text, g); }
  }

  /** A service is dropped with its last value. */
  lemma SubFieldResets(st: ConfigState, svc: string, f: Field)
    ensures svc !in st.subsystems ==> Differs(st, st, Sub(svc, f), NOTHING)
    ensures svc in st.subsystems ==>
              var sub := FieldReset(st.subsystems[svc], f);
              var kept := sub.maxJobs.IsSet() || sub.account.IsSet() || sub.appVersion.IsSet();
              Differs(st, st.(subsystems := if kept then st.subsystems[svc := sub] else st.subsystems - {svc}),
                      Sub(svc, f), NOTHING)
  {
  }

  class Config {
    var core: CoreConfig
    var watermark: Param<(int, int)>
    var prefetch: Param<int>
    var mode: Param<string>
    var poll: Param<int>
    var shares: map<string, ShareConfig>
    var subsystems: map<string, CoreConfig>
    const workers: int  // the compiled default for max_jobs

    ghost function State(): ConfigState
      reads this
    {
      ConfigState(core, watermark, prefetch, mode, poll, shares, subsystems)
    }

    ghost function Contents(): Store
      reads this
    {
      View(State())
    }

    /** The configuration with all defaults. */
    constructor (defaultWorkers: int)
      ensures workers == defaultWorkers
      ensures Contents() == map[] && forall a :: At(State(), a) == NOTHING
      ensures DefaultsOf(State()) == Defaults("default", "", defaultWorkers, (0, 0), 1, "encrypted", 5)
    {
      core := FreshCore(defaultWorkers);
      watermark := Param((0, 0), (0, 0), Unset);
      prefetch := Param(0, 1, Unset);
      mode := Param("", "encrypted", Unset);
      poll := Param(0, 5, Unset);
      shares := map[];
      subsystems := map[];
      workers := defaultWorkers;
    }

    /** Applies a string value at the place a selector addresses. */
    method Set(sel: seq<Segment>, value: string) returns (err: Option<ConfigError>)
      modifies this
      ensures AddressOf(sel).Err? ==> err == Some(AddressOf(sel).error) && State() == old(State())
      ensures AddressOf(sel).Ok? ==>
                var a := AddressOf(sel).value;
                match Accept(a, value)
                case None => err == Some(BadValue) && State() == old(State())
                case Some(v) =>
                  && err == None && Contents() == Put(old(Contents()), a, v)
                  && Differs(old(State()), State(), a, Accepted(a, v))
    {
      ghost var before := State();
      if |sel| < 2 { return Some(TooShort); }
      var ns := sel[0].name;
      if ns == "core" {
        err := SetCoreField(sel, value);
      } else if ns == "protonfs" {
        err := SetProtonFSField(sel, value);
      } else if ns == "share" {
        err := SetShareField(sel, value);
      } else {
        err := SetSubsystemField(sel, value);
      }
      if err.None? {
        ViewAfterPut(before, State(), AddressOf(sel).value, Accept(AddressOf(sel).value, value).value);
      }
    }

    method SetCoreField(sel: seq<Segment>, value: string) returns (err: Option<ConfigError>)
      requires |sel| >= 2 && sel[0].name == "core"
      modifies this
      ensures SetAt(old(State()), State(), sel, value, err)
    {
      var field := sel[1].name;
      if field == "memory_cache_watermark" {
        var v := ParseRange(value);
        if v.None? { return Some(BadValue); }
        WatermarkChanges(State(), v.value);
        watermark := watermark.SetFile(v.value);
        return None;
      }
      var f := FieldNamed(field);
      if f.None? { return Some(UnknownField); }
      if AcceptField(f.value, value).None? { return Some(BadValue); }
      CoreFieldChanges(State(), f.value, value);
      core := FieldSet(core, f.value, value);
      return None;
    }

    method SetProtonFSField(sel: seq<Segment>, value: string) returns (err: Option<ConfigError>)
      requires |sel| >= 2 && sel[0].name == "protonfs"
      modifies this
      ensures SetAt(old(State()), State(), sel, value, err)
    {
      var field := sel[1].name;
      if field == "prefetch_blocks" {
        var n := Atoi(value);
        if n.None? || n.value < 0 { return Some(BadValue); }
        PrefetchChanges(State(), n.value);
        prefetch := prefetch.SetFile(n.value);
        return None;
      }
      if field == "block_cache_mode" {
        if value != "encrypted" && value != "decrypted" { return Some(BadValue); }
        ModeChanges(State(), value);
        mode := mode.SetFile(value);
        return None;
      }
      if field == "event_poll_interval" {
        var n := Atoi(value);
        if n.None? || n.value <= 0 { return Some(BadValue); }
        PollChanges(State(), n.value);
        poll := poll.SetFile(n.value);
        return None;
      }
      return Some(UnknownField);
    }

    method SetShareField(sel: seq<Segment>, value: string) returns (err: Option<ConfigError>)
      requires |sel| >= 2 && sel[0].name == "share"
      modifies this
      ensures SetAt(old(State()), State(), sel, value, err)
    {
      if sel[0].indexKey == "" { return Some(MissingIndex); }
      var id, field := sel[0].indexVal, sel[1].name;
      if field != "memory_cache" && field != "disk_cache" { return Some(UnknownField); }
      var sc := if id in shares then shares[id] else ShareConfig(CacheDisabled, DiskCacheDisabled);
      if field == "memory_cache" {
        var m := MemoryNamed(value);
        if m.None? { return Some(BadValue); }
        sc := sc.(memory := m.value);
      } else {
        var d := DiskNamed(value);
        if d.None? { return Some(BadValue); }
        sc := sc.(disk := d.value);
      }
      shares := shares[id := sc];
      return None;
    }

    method SetSubsystemField(sel: seq<Segment>, value: string) returns (err: Option<ConfigError>)
      requires |sel| >= 2 && sel[0].name != "core" && sel[0].name != "protonfs" && sel[0].name != "share"
      modifies this
      ensures SetAt(old(State()), State(), sel, value, err)
    {
      var svc := sel[0].name;
      if !IsService(svc) { return Some(UnknownNamespace); }
      var f := FieldNamed(sel[1].name);
      if f.None? { return Some(UnknownField); }
      if AcceptField(f.value, value).None? { return Some(BadValue); }
      SubFieldChanges(State(), svc, f.value, value, workers);
      if svc !in subsystems {
        subsystems := subsystems[svc := FreshCore(workers)];
      }
      subsystems := subsystems[svc := FieldSet(subsystems[svc], f.value, value)];
      return None;
    }

    /** Reverts the value a selector addresses to its default. */
    method UnsetField(sel: seq<Segment>) returns (err: Option<ConfigError>)
      modifies this
      ensures match AddressOf(sel)
              case Err(e) => err == Some(e) && State() == old(State())
              case Ok(a) =>
                && err == None && Contents() == old(Contents()) - {a}
                && Differs(old(State()), State(), a, NOTHING)
    {
      ghost var before := State();
      if |sel| < 2 { return Some(TooShort); }
      var ns := sel[0].name;
      if ns == "core" || ns == "protonfs" {
        err := UnsetPlain(sel);
      } else if ns == "share" {
        err := UnsetShareField(sel);
      } else {
        err := UnsetSubsystemField(sel);
      }
      if err.None? {
        ViewAfterRemove(before, State(), AddressOf(sel).value);
      }
    }

    /** The core and protonfs namespaces. */
    method UnsetPlain(sel: seq<Segment>) returns (err: Option<ConfigError>)
      requires |sel| >= 2 && (sel[0].name == "core" || sel[0].name == "protonfs")
      modifies this
      ensures UnsetAt(old(State()), State(), sel, err)
    {
      var field := sel[1].name;
      if sel[0].name == "core" {
        if field == "memory_cache_watermark" {
          watermark := watermark.Reset((0, 0));
          return None;
        }
        var f := FieldNamed(field);
        if f.None? { return Some(UnknownField); }
        core := FieldReset(core, f.value);
        return None;
      }
      if field == "prefetch_blocks" {
        prefetch := prefetch.Reset(0);
      } else if field == "block_cache_mode" {
        mode := mode.Reset("");
      } else if field == "event_poll_interval" {
        poll := poll.Reset(0);
      } else {
        return Some(UnknownField);
      }
      return None;
    }

    method UnsetShareField(sel: seq<Segment>) returns (err: Option<ConfigError>)
      requires |sel| >= 2 && sel[0].name == "share"
      modifies this
      ensures UnsetAt(old(State()), State(), sel, err)
    {
      if sel[0].indexKey == "" { return Some(MissingIndex); }
      var id, field := sel[0].indexVal, sel[1].name;
      if field != "memory_cache" && field != "disk_cache" { return Some(UnknownField); }
      if id !in shares { return None; }
      var sc := shares[id];
      if field == "memory_cache" {
        sc := sc.(memory := CacheDisabled);
      } else {
        sc := sc.(disk := DiskCacheDisabled);
      }
      if sc.memory == CacheDisabled && sc.disk == DiskCacheDisabled {
        shares := shares - {id};
      } else {
        shares := shares[id := sc];
      }
      return None;
    }

    method UnsetSubsystemField(sel: seq<Segment>) returns (err: Option<ConfigError>)
      requires |sel| >= 2 && sel[0].name != "core" && sel[0].name != "protonfs" && sel[0].name != "share"
      modifies this
      ensures UnsetAt(old(State()), State(), sel, err)
    {
      var svc := sel[0].name;
      if !IsService(svc) { return Some(UnknownNamespace); }
      var f := FieldNamed(sel[1].name);
      if f.None? { return Some(UnknownField); }
      SubFieldResets(State(), svc, f.value);
      if svc !in subsystems { return None; }
      var sub := FieldReset(subsystems[svc], f.value);
      if !sub.maxJobs.IsSet() && !sub.account.IsSet() && !sub.appVersion.IsSet() {
        subsystems := subsystems - {svc};
      } else {
        subsystems := subsystems[svc := sub];
      }
      return None;
    }

    /** The text of the value a selector addresses, defaults included. */
    method Get(sel: seq<Segment>) returns (r: Result<string, ConfigError>)
      ensures AddressOf(sel).Err? ==> r == Err(AddressOf(sel).error)
      ensures AddressOf(sel).Ok? && AddressOf(sel).value in Contents() ==> r == Ok(Contents()[AddressOf(sel).value])
      ensures AddressOf(sel).Ok? ==>
                var a, d := AddressOf(sel).value, DefaultsOf(State());
                var own := At(State(), a);
                r == Ok(if own != NOTHING then own.text
                        else if a.Sub? && At(State(), Core(a.field)) != NOTHING then At(State(), Core(a.field)).text
                        else DefaultText(d, a))
    {
      if |sel| < 2 { return Err(TooShort); }
      var ns := sel[0].name;
      if AddressOf(sel).Ok? {
        ViewHolds(State(), AddressOf(sel).value);
        StoredIsFromFile(State(), AddressOf(sel).value);
      }
      if ns == "core" {
        r := GetCoreField(sel);
      } else if ns == "protonfs" {
        r := GetProtonFSField(sel);
      } else if ns == "share" {
        r := GetShareField(sel);
      } else {
        r := GetSubsystemField(sel);
      }
    }

    method GetCoreField(sel: seq<Segment>) returns (r: Result<string, ConfigError>)
      requires |sel| >= 2 && sel[0].name == "core"
      ensures r == InEffect(State(), AddressOf(sel))
    {
      var field := sel[1].name;
      if field == "memory_cache_watermark" {
        return Ok(FormatRange(watermark.Effective().0, watermark.Effective().1));
      }
      var f := FieldNamed(field);
      if f.None? { return Err(UnknownField); }
      return Ok(FieldText(core, f.value));
    }

    method GetProtonFSField(sel: seq<Segment>) returns (r: Result<string, ConfigError>)
      requires |sel| >= 2 && sel[0].name == "protonfs"
      ensures r == InEffect(State(), AddressOf(sel))
    {
      var field := sel[1].name;
      if field == "prefetch_blocks" { return Ok(Itoa(prefetch.Effective())); }
      if field == "block_cache_mode" { return Ok(mode.Effective()); }
      if field == "event_poll_interval" { return Ok(Itoa(poll.Effective())); }
      return Err(UnknownField);
    }

    method GetShareField(sel: seq<Segment>) returns (r: Result<string, ConfigError>)
      requires |sel| >= 2 && sel[0].name == "share"
      ensures r == InEffect(State(), AddressOf(sel))
    {
      if sel[0].indexKey == "" { return Err(MissingIndex); }
      var id, field := sel[0].indexVal, sel[1].name;
      var sc := if id in shares then shares[id] else ShareConfig(CacheDisabled, DiskCacheDisabled);
      if field == "memory_cache" { return Ok(MemoryText(sc.memory)); }
      if field == "disk_cache" { return Ok(DiskText(sc.disk)); }
      return Err(UnknownField);
    }

    method GetSubsystemField(sel: seq<Segment>) returns (r: Result<string, ConfigError>)
      requires |sel| >= 2 && sel[0].name != "core" && sel[0].name != "protonfs" && sel[0].name != "share"
      ensures r == InEffect(State(), AddressOf(sel))
    {
      var svc := sel[0].name;
      if !IsService(svc) { return Err(UnknownNamespace); }
      var f := FieldNamed(sel[1].name);
      if f.None? { return Err(UnknownField); }
      if svc in subsystems && FieldSource(subsystems[svc], f.value) != Unset {
        return Ok(FieldText(subsystems[svc], f.value));
      }
      return Ok(FieldText(core, f.value));
    }

    /** All entries that came from the file. */
    method List() returns (entries: seq<Entry>)
      ensures entries == Listing(Contents())
    {
      var fixed := ListFixed();
      var subs := ListSubsystems();
      var shared := ListShares();
      KeysCover(State());
      ListingOver(Contents(), subsystems.Keys, shares.Keys);
      entries := fixed + subs + shared;
    }

    /** The core and protonfs entries. */
    method ListFixed() returns (entries: seq<Entry>)
      ensures entries == Entries(FIXED, Contents())
    {
      FixedTailShown(State());
      entries := ListCore();
      entries := entries
        + Shown(FromFile(watermark.source, FormatRange(watermark.Effective().0, watermark.Effective().1)), Name(Watermark))
        + Shown(FromFile(prefetch.source, Itoa(prefetch.Effective())), Name(Prefetch))
        + Shown(FromFile(mode.source, mode.Effective()), Name(Mode))
        + Shown(FromFile(poll.source, Itoa(poll.Effective())), Name(Poll));
    }

    method ListCore() returns (entries: seq<Entry>)
      ensures entries == Entries(FIXED[..3], Contents())
    {
      entries := [];
      for j := 0 to |FIELDS|
        invariant entries == Entries(FIXED[..j], Contents())
      {
        var f := FIELDS[j];
        FixedNext(State(), j);
        entries := entries + Shown(FromFile(FieldSource(core, f), FieldText(core, f)), "core." + FieldName(f));
      }
    }

    method ListSubsystems() returns (entries: seq<Entry>)
      ensures entries == Entries(SubAddresses(Sorted(subsystems.Keys)), Contents())
    {
      ghost var view := Contents();
      entries := [];
      var svcs := SortedKeys(subsystems.Keys);
      SortedMembers(subsystems.Keys);
      for i := 0 to |svcs|
        invariant entries == Entries(SubAddresses(svcs[..i]), view)
      {
        var svc := svcs[i];
        assert svc in svcs;
        var own := ListSubsystem(svc);
        entries := entries + own;
        SubAddressesNext(svcs, i, view);
      }
      assert svcs[..|svcs|] == svcs;
    }

    method ListSubsystem(svc: string) returns (entries: seq<Entry>)
      requires svc in subsystems
      ensures entries == Entries(ServiceAddresses(svc), Contents())
    {
      ghost var addrs, view := ServiceAddresses(svc), Contents();
      var sub := subsystems[svc];
      entries := [];
      for j := 0 to |FIELDS|
        invariant entries == Entries(addrs[..j], view)
      {
        var f := FIELDS[j];
        assert addrs[..j + 1] == addrs[..j] + [Sub(svc, f)];
        EntriesSnoc(addrs[..j], Sub(svc, f), view);
        SubShown(State(), svc, f);
        entries := entries + Shown(FromFile(FieldSource(sub, f), FieldText(sub, f)), svc + "." + FieldName(f));
      }
      assert addrs[..3] == addrs;
    }

    method ListShares() returns (entries: seq<Entry>)
      ensures entries == Entries(ShareAddresses(Sorted(shares.Keys)), Contents())
    {
      ghost var view := Contents();
      entries := [];
      var ids := SortedKeys(shares.Keys);
      SortedMembers(shares.Keys);
      for i := 0 to |ids|
        invariant entries == Entries(ShareAddresses(ids[..i]), view)
      {
        var id := ids[i];
        assert id in ids;
        var own := ListShare(id);
        entries := entries + own;
        ShareAddressesNext(ids, i, view);
      }
      assert ids[..|ids|] == ids;
    }

    method ListShare(id: string) returns (entries: seq<Entry>)
      requires id in shares
      ensures entries == Entries([Memory(id), Disk(id)], Contents())
    {
      var sc := shares[id];
      ShareIsListed(State(), id);
      entries := [];
      if sc.memory != CacheDisabled {
        entries := entries + [Entry("share[id=" + id + "].memory_cache", MemoryText(sc.memory))];
      }
      if sc.disk != DiskCacheDisabled {
        entries := entries + [Entry("share[id=" + id + "].disk_cache", DiskText(sc.disk))];
      }
    }
  }

  lemma ShareIsListed(st: ConfigState, id: string)
    requires id in st.shares
    ensures var sc := st.shares[id];
            Entries([Memory(id), Disk(id)], View(st)) ==
            (if sc.memory != CacheDisabled then [Entry("share[id=" + id + "].memory_cache", MemoryText(sc.memory))] else [])
            + (if sc.disk != DiskCacheDisabled then [Entry("share[id=" + id + "].disk_cache", DiskText(sc.disk))] else [])
  {
    ShareEntries(id, View(st));
    MemoryIsListed(st, id);
    DiskIsListed(st, id);
  }

  lemma MemoryIsListed(st: ConfigState, id: string)
    requires id in st.shares
    ensures var m := st.shares[id].memory;
            EntryAt(Memory(id), View(st)) ==
            if m != CacheDisabled then [Entry("share[id=" + id + "].memory_cache", MemoryText(m))] else []
  {
    ViewHolds(st, Memory(id));
  }

  lemma DiskIsListed(st: ConfigState, id: string)
    requires id in st.shares
    ensures var d := st.shares[id].disk;
            EntryAt(Disk(id), View(st)) ==
            if d != DiskCacheDisabled then [Entry("share[id=" + id + "].disk_cache", DiskText(d))] else []
  {
    ViewHolds(st, Disk(id));
  }

  lemma ShareAddressesNext(ids: seq<string>, i: nat, view: Store)
    requires i < |ids|
    ensures Entries(ShareAddresses(ids[..i + 1]), view) ==
            Entries(ShareAddresses(ids[..i]), view) + Entries([Memory(ids[i]), Disk(ids[i])], view)
  {
    assert ids[..i + 1][..i] == ids[..i];
    EntriesAppend(ShareAddresses(ids[..i]), [Memory(ids[i]), Disk(ids[i])], view);
  }

  lemma SubAddressesNext(svcs: seq<string>, i: nat, view: Store)
    requires i < |svcs|
    ensures Entries(SubAddresses(svcs[..i + 1]), view) ==
            Entries(SubAddresses(svcs[..i]), view) + Entries(ServiceAddresses(svcs[i]), view)
  {
    assert svcs[..i + 1][..i] == svcs[..i];
    EntriesAppend(SubAddresses(svcs[..i]), ServiceAddresses(svcs[i]), view);
  }

  lemma ShownIsEntry(st: ConfigState, a: Address)
    ensures Shown(Stored(st, a), Name(a)) == EntryAt(a, View(st))
  {
    ViewHolds(st, a);
  }

  lemma SubShown(st: ConfigState, svc: string, f: Field)
    requires svc in st.subsystems
    ensures Shown(FromFile(FieldSource(st.subsystems[svc], f), FieldText(st.subsystems[svc], f)), svc + "." + FieldName(f))
            == EntryAt(Sub(svc, f), View(st))
  {
    ShownIsEntry(st, Sub(svc, f));
  }

  lemma FixedNext(st: ConfigState, j: nat)
    requires j < |FIELDS|
    ensures Entries(FIXED[..j + 1], View(st)) ==
            Entries(FIXED[..j], View(st)) + Shown(Stored(st, Core(FIELDS[j])), "core." + FieldName(FIELDS[j]))
  {
    assert FIXED[..j + 1] == FIXED[..j] + [Core(FIELDS[j])];
    EntriesSnoc(FIXED[..j], Core(FIELDS[j]), View(st));
    ShownIsEntry(st, Core(FIELDS[j]));
  }

  lemma FixedTailShown(st: ConfigState)
    ensures Entries(FIXED, View(st)) == Entries(FIXED[..3], View(st))
            + Shown(Stored(st, Watermark), Name(Watermark)) + Shown(Stored(st, Prefetch), Name(Prefetch))
            + Shown(Stored(st, Mode), Name(Mode)) + Shown(Stored(st, Poll), Name(Poll))
  {
    ShownIsEntry(st, Watermark);
    ShownIsEntry(st, Prefetch);
    ShownIsEntry(st, Mode);
    ShownIsEntry(st, Poll);
    FixedTail(View(st));
  }

  lemma FixedTail(view: Store)
    ensures Entries(FIXED, view) == Entries(FIXED[..3], view) + EntryAt(Watermark, view)
                                    + EntryAt(Prefetch, view) + EntryAt(Mode, view) + EntryAt(Poll, view)
  {
    assert FIXED == FIXED[..3] + [Watermark] + [Prefetch] + [Mode] + [Poll];
    FourMore(FIXED[..3], Watermark, Prefetch, Mode, Poll, view);
  }

  lemma FourMore(addrs: seq<Address>, a: Address, b: Address, c: Address, d: Address, view: Store)
    ensures Entries(addrs + [a] + [b] + [c] + [d], view) ==
            Entries(addrs, view) + EntryAt(a, view) + EntryAt(b, view) + EntryAt(c, view) + EntryAt(d, view)
  {
    EntriesSnoc(addrs, a, view);
    EntriesSnoc(addrs + [a], b, view);
    EntriesSnoc(addrs + [a] + [b], c, view);
    EntriesSnoc(addrs + [a] + [b] + [c], d, view);
  }

  function Shown(text: Option<string>, name: string): seq<Entry> {
    match text
    case Some(v) => [Entry(name, v)]
    case None => []
  }

  lemma KeysCover(st: ConfigState)
    ensures Services(View(st)) <= st.subsystems.Keys && Ids(View(st)) <= st.shares.Keys
  {
    forall a | a in View(st) ensures a.Sub? ==> a.svc in st.subsystems
                             ensures a.Memory? || a.Disk? ==> a.id in st.shares
    {
      ViewHolds(st, a);
    }
  }

  // ----- whole runs -----

  /** Whatever the parser accepts denotes an addressable place, or none. */
  lemma ParsedIsAddressable(input: string)
    requires Parse(input).Ok? && AddressOf(Parse(input).value).Ok?
    ensures Addressable(AddressOf(Parse(input).value).value)
  {
    ParsedIndexes(input);
    ShapedIsAddressable(Parse(input).value);
  }

  lemma ShapedIsAddressable(sel: seq<Segment>)
    requires IndexesShaped(sel, "") && AddressOf(sel).Ok?
    ensures Addressable(AddressOf(sel).value)
  {
  }

  /** One command on a configuration. */
  datatype Edit = SetTo(selector: string, value: string) | Remove(selector: string)

  /** The effect of a command on the store: refused commands change nothing. */
  ghost function Step(view: Store, e: Edit): Store {
    match Parse(e.selector)
    case Err(_) => view
    case Ok(sel) =>
      match AddressOf(sel)
      case Err(_) => view
      case Ok(a) =>
        if e.Remove? then view - {a}
        else if Accept(a, e.value).Some? then Put(view, a, Accept(a, e.value).value)
        else view
  }

  ghost function Run(edits: seq<Edit>): Store {
    if edits == [] then map[] else Step(Run(edits[..|edits| - 1]), edits[|edits| - 1])
  }

  /** Every store reached from the default by parsing, setting and unsetting is canonical, so
      its listing replays to it. */
  lemma {:induction false} ReachableReplays(edits: seq<Edit>)
    ensures Canonical(Run(edits))
    ensures Replay(map[], Listing(Run(edits))) == Some(Run(edits))
  {
    if edits != [] {
      var e := edits[|edits| - 1];
      var view := Run(edits[..|edits| - 1]);
      ReachableReplays(edits[..|edits| - 1]);
      if Parse(e.selector).Ok? && AddressOf(Parse(e.selector).value).Ok? {
        ParsedIsAddressable(e.selector);
        var a := AddressOf(Parse(e.selector).value).value;
        if e.SetTo? && Accept(a, e.value).Some? { PutKeepsCanonical(view, a, e.value); }
      }
    }
    ReplayListing(Run(edits));
  }

  /** Runs commands on a configuration, each through the parser. */
  method Execute(edits: seq<Edit>, workers: int) returns (cfg: Config)
    ensures fresh(cfg) && cfg.Contents() == Run(edits) && Canonical(cfg.Contents())
  {
    cfg := new Config(workers);
    for i := 0 to |edits|
      invariant cfg.Contents() == Run(edits[..i])
    {
      assert edits[..i + 1][..i] == edits[..i];
      var sel := ParseSelector(edits[i].selector);
      if sel.Ok? {
        var err;
        if edits[i].SetTo? {
          err := cfg.Set(sel.value, edits[i].value);
        } else {
          err := cfg.UnsetField(sel.value);
        }
      }
    }
    assert edits[..|edits|] == edits;
    ReachableReplays(edits);
  }

  /** Replays a listing through the parser onto a fresh configuration. */
  method ReplayOnto(entries: seq<Entry>, cfg: Config, ghost target: Store)
    requires Replay(cfg.Contents(), entries) == Some(target)
    modifies cfg
    ensures cfg.Contents() == target
  {
    ghost var start := cfg.Contents();
    assert entries[..|entries|] == entries;
    for i := 0 to |entries|
      invariant Replay(start, entries[..i]) == Some(cfg.Contents())
    {
      ReplayNext(start, entries, i);
      ReplayEntry(entries[i], cfg);
    }
  }

  method ReplayEntry(e: Entry, cfg: Config)
    requires Apply(cfg.Contents(), e).Some?
    modifies cfg
    ensures Some(cfg.Contents()) == old(Apply(cfg.Contents(), e))
  {
    var sel := ParseSelector(e.selector);
    var err := cfg.Set(sel.value, e.value);
  }

  lemma ReplayNext(view: Store, entries: seq<Entry>, i: nat)
    requires i < |entries| && Replay(view, entries).Some?
    ensures Replay(view, entries[..i]).Some?
    ensures Replay(view, entries[..i + 1]) == Apply(Replay(view, entries[..i]).value, entries[i])
    ensures Replay(view, entries[..i + 1]).Some?
  {
    ReplayPrefix(view, entries, i);
    ReplayPrefix(view, entries, i + 1);
    assert entries[..i + 1][..i] == entries[..i];
  }

  lemma {:induction false} ReplayPrefix(view: Store, entries: seq<Entry>, n: nat)
    requires n <= |entries| && Replay(view, entries).Some?
    ensures Replay(view, entries[..n]).Some?
    decreases |entries|
  {
    if n < |entries| {
      ReplayPrefix(view, entries[..|entries| - 1], n);
      assert entries[..|entries| - 1][..n] == entries[..n];
    } else {
      assert entries[..n] == entries;
    }
  }

  /** Listing a configuration and replaying the listing on a fresh default gives a
      configuration with the same contents, hence the same listing. */
  method CopyByListing(cfg: Config) returns (copy: Config, entries: seq<Entry>, again: seq<Entry>)
    requires Canonical(cfg.Contents())
    ensures copy.Contents() == cfg.Contents()
    ensures entries == Listing(cfg.Contents()) && again == entries
  {
    ghost var view := cfg.Contents();
    entries := cfg.List();
    ReplayListing(view);
    copy := new Config(cfg.workers);
    ReplayOnto(entries, copy, view);
    again := copy.List();
  }

  /** The configuration file; saved is what it holds. */
  class ConfigFile {
    ghost var saved: Store

    /** Writes a temporary file and renames it: all of the configuration, or nothing. */
    method SaveConfig(cfg: Config) returns (ok: bool)
      modifies this
      ensures saved == if ok then cfg.Contents() else old(saved)
    {
      ok := *;
      if ok { saved := cfg.Contents(); }
    }
  }

  /** Every value that matches the prefix is at a place a selector can denote; a file may bring
      in others. */
  ghost predicate MatchesAddressable(view: Store, prefix: string) {
    forall a | a in view && MatchPrefix(Name(a), prefix) :: Addressable(a)
  }

  /** Unsets everything under a prefix in a loaded configuration and saves it; reports the removed
      selectors.  A failing save leaves the file as it was. */
  method RunUnsetAll(cfg: Config, file: ConfigFile, prefix: string) returns (r: Result<seq<string>, ConfigError>)
    requires file.saved == cfg.Contents()
    modifies cfg, file
    ensures r.Err? ==> r == Err(SaveFailed) && file.saved == old(file.saved)
    ensures r.Ok? ==> r.value == Removed(Listing(old(file.saved)), prefix) && file.saved == cfg.Contents()
    ensures r.Ok? ==> (file.saved == Unmatched(old(file.saved), prefix) <==> MatchesAddressable(old(file.saved), prefix))
    ensures r.Ok? && MatchesAddressable(old(file.saved), prefix) ==>
              && Listing(file.saved) == FilterOut(Listing(old(file.saved)), prefix)
              && r.value == Matching(Listing(old(file.saved)), prefix)
    ensures Canonical(old(file.saved)) ==> Canonical(file.saved)
  {
    var removed := UnsetMatching(cfg, prefix);
    var ok := file.SaveConfig(cfg);
    return if ok then Ok(removed) else Err(SaveFailed);
  }

  /** Removes the listed entries whose selector matches the prefix, as far as the selectors can be
      read back; returns the removed selectors.  That is everything that matches exactly when
      all of it is addressable. */
  method UnsetMatching(cfg: Config, prefix: string) returns (removed: seq<string>)
    modifies cfg
    ensures cfg.Contents() == Unmatched(old(cfg.Contents()), prefix) <==> MatchesAddressable(old(cfg.Contents()), prefix)
    ensures removed == Removed(old(Listing(cfg.Contents())), prefix)
    ensures MatchesAddressable(old(cfg.Contents()), prefix) ==>
              && Listing(cfg.Contents()) == FilterOut(old(Listing(cfg.Contents())), prefix)
              && removed == Matching(old(Listing(cfg.Contents())), prefix)
    ensures Canonical(old(cfg.Contents())) ==> Canonical(cfg.Contents())
  {
    ghost var view := cfg.Contents();
    var entries := cfg.List();
    removed := RemoveMatching(cfg, entries, prefix);
    RemoveListing(view, prefix);
    if MatchesAddressable(view, prefix) {
      FilterListing(view, prefix);
      ListedIsRemovable(Order(view), view, prefix);
      RemovedIsMatching(entries, prefix);
    }
  }

  /** The selectors of the entries that match a prefix. */
  function Matching(entries: seq<Entry>, prefix: string): seq<string> {
    if entries == [] then []
    else
      var e := entries[|entries| - 1];
      Matching(entries[..|entries| - 1], prefix) + if MatchPrefix(e.selector, prefix) then [e.selector] else []
  }

  predicate Removable(e: Entry) {
    Parse(e.selector).Ok? && AddressOf(Parse(e.selector).value).Ok?
  }

  /** The same without the entries that are refused. */
  function Removed(entries: seq<Entry>, prefix: string): seq<string> {
    if entries == [] then []
    else
      var e := entries[|entries| - 1];
      Removed(entries[..|entries| - 1], prefix) + if MatchPrefix(e.selector, prefix) && Removable(e) then [e.selector] else []
  }

  lemma {:induction false} RemovedIsMatching(entries: seq<Entry>, prefix: string)
    requires forall e | e in entries && MatchPrefix(e.selector, prefix) :: Removable(e)
    ensures Removed(entries, prefix) == Matching(entries, prefix)
  {
    if entries != [] {
      assert entries[|entries| - 1] in entries;
      RemovedIsMatching(entries[..|entries| - 1], prefix);
    }
  }

  /** No listed entry that matches is refused. */
  lemma {:induction false} ListedIsRemovable(addrs: seq<Address>, view: Store, prefix: string)
    requires MatchesAddressable(view, prefix)
    ensures forall e | e in Entries(addrs, view) && MatchPrefix(e.selector, prefix) :: Removable(e)
  {
    if addrs != [] {
      var a := addrs[|addrs| - 1];
      ListedIsRemovable(addrs[..|addrs| - 1], view, prefix);
      if a in view && MatchPrefix(Name(a), prefix) { NameRoundTrip(a); }
    }
  }

  /** The loop over the entries; an entry that is refused is skipped. */
  method RemoveMatching(cfg: Config, entries: seq<Entry>, prefix: string) returns (removed: seq<string>)
    modifies cfg
    ensures cfg.Contents() == RemoveAll(old(cfg.Contents()), entries, prefix)
    ensures removed == Removed(entries, prefix)
  {
    ghost var view := cfg.Contents();
    removed := [];
    for i := 0 to |entries|
      invariant cfg.Contents() == RemoveAll(view, entries[..i], prefix)
      invariant removed == Removed(entries[..i], prefix)
    {
      assert entries[..i + 1][..i] == entries[..i];
      var gone := RemoveEntry(cfg, entries[i], prefix);
      if gone { removed := removed + [entries[i].selector]; }
    }
    assert entries[..|entries|] == entries;
  }

  method RemoveEntry(cfg: Config, e: Entry, prefix: string) returns (gone: bool)
    modifies cfg
    ensures gone == (MatchPrefix(e.selector, prefix) && Removable(e))
    ensures cfg.Contents() == if gone then old(cfg.Contents()) - {AddressOf(Parse(e.selector).value).value}
                              else old(cfg.Contents())
  {
    if !MatchPrefix(e.selector, prefix) { return false; }
    var sel := ParseSelector(e.selector);
    if sel.Err? { return false; }
    var err := cfg.UnsetField(sel.value);
    return err.None?;
  }

  ghost function RemoveAll(view: Store, entries: seq<Entry>, prefix: string): Store {
    if entries == [] then view
    else
      var e := entries[|entries| - 1];
      var v := RemoveAll(view, entries[..|entries| - 1], prefix);
      if MatchPrefix(e.selector, prefix) && Removable(e)
      then v - {AddressOf(Parse(e.selector).value).value} else v
  }

  lemma RemoveSnoc(entries: seq<Entry>, a: Address, view: Store, prefix: string)
    requires a in view && (MatchPrefix(Name(a), prefix) ==> Addressable(a))
    ensures RemoveAll(view, entries + [Entry(Name(a), view[a])], prefix) ==
            if MatchPrefix(Name(a), prefix) then RemoveAll(view, entries, prefix) - {a} else RemoveAll(view, entries, prefix)
  {
    if MatchPrefix(Name(a), prefix) { NameRoundTrip(a); }
    assert (entries + [Entry(Name(a), view[a])])[..|entries|] == entries;
  }

  /** What is left when the matching ones among some addresses are removed. */
  ghost function Kept(view: Store, addrs: seq<Address>, prefix: string): Store {
    map a | a in view && !(a in addrs && MatchPrefix(Name(a), prefix)) :: view[a]
  }

  lemma KeptSnoc(view: Store, addrs: seq<Address>, a: Address, prefix: string)
    ensures Kept(view, addrs + [a], prefix) ==
            if MatchPrefix(Name(a), prefix) then Kept(view, addrs, prefix) - {a} else Kept(view, addrs, prefix)
  {
  }

  ghost predicate Removes(addrs: seq<Address>, view: Store, prefix: string) {
    RemoveAll(view, Entries(addrs, view), prefix) == Kept(view, addrs, prefix)
  }

  lemma RemoveOneMore(addrs: seq<Address>, a: Address, view: Store, prefix: string)
    requires Removes(addrs, view, prefix) && (a in view && MatchPrefix(Name(a), prefix) ==> Addressable(a))
    ensures Removes(addrs + [a], view, prefix)
  {
    var entries, kept := Entries(addrs, view), Kept(view, addrs, prefix);
    EntriesSnoc(addrs, a, view);
    KeptSnoc(view, addrs, a, prefix);
    if a in view {
      RemoveSnoc(entries, a, view, prefix);
      assert Entries(addrs + [a], view) == entries + [Entry(Name(a), view[a])];
    } else {
      assert Entries(addrs + [a], view) == entries;
      assert kept - {a} == kept;
    }
  }

  lemma RemoveNone(view: Store, prefix: string)
    ensures Removes([], view, prefix)
  {
    assert Kept(view, [], prefix) == view;
  }

  /** Induction over the addresses from the left. */
  lemma {:induction false} AddressInduction(holds: seq<Address> -> bool, addrs: seq<Address>)
    requires holds([]) && forall front, a | holds(front) :: holds(front + [a])
    ensures holds(addrs)
  {
    if addrs != [] {
      var front, a := addrs[..|addrs| - 1], addrs[|addrs| - 1];
      AddressInduction(holds, front);
      assert addrs == front + [a];
    }
  }

  lemma RemoveEntries(addrs: seq<Address>, view: Store, prefix: string)
    requires MatchesAddressable(view, prefix)
    ensures Removes(addrs, view, prefix)
  {
    var holds: seq<Address> -> bool := front => Removes(front, view, prefix);
    RemoveNone(view, prefix);
    forall front, a | holds(front) ensures holds(front + [a]) { RemoveOneMore(front, a, view, prefix); }
    AddressInduction(holds, addrs);
  }

  /** What no selector can denote is not removed. */
  lemma {:induction false} UnaddressableStays(view: Store, entries: seq<Entry>, prefix: string, a: Address)
    requires a in view && !Addressable(a)
    ensures a in RemoveAll(view, entries, prefix)
  {
    if entries != [] {
      var e := entries[|entries| - 1];
      UnaddressableStays(view, entries[..|entries| - 1], prefix, a);
      if Removable(e) { ParsedIsAddressable(e.selector); }
    }
  }

  lemma RemoveListing(view: Store, prefix: string)
    ensures RemoveAll(view, Listing(view), prefix) == Unmatched(view, prefix) <==> MatchesAddressable(view, prefix)
  {
    if MatchesAddressable(view, prefix) {
      RemoveEntries(Order(view), view, prefix);
      forall a | a in view ensures a in Order(view) { OrderCovers(view, a); }
      assert Kept(view, Order(view), prefix) == Unmatched(view, prefix);
    } else {
      var a :| a in view && MatchPrefix(Name(a), prefix) && !Addressable(a);
      UnaddressableStays(view, Listing(view), prefix, a);
    }
  }

  /** Such a value: a share identifier with a bracket, as a file may hold it. */
  lemma BracketStays(id: string, v: string)
    requires ']' in id
    ensures var view := map[Memory(id) := v]; RemoveAll(view, Listing(view), "") == view
  {
    var view := map[Memory(id) := v];
    UnaddressableStays(view, Listing(view), "", Memory(id));
    RemoveAllShrinks(view, Listing(view), "");
  }

  lemma {:induction false} RemoveAllShrinks(view: Store, entries: seq<Entry>, prefix: string)
    ensures forall b | b in RemoveAll(view, entries, prefix) :: b in view && RemoveAll(view, entries, prefix)[b] == view[b]
  {
    if entries != [] { RemoveAllShrinks(view, entries[..|entries| - 1], prefix); }
  }
}
