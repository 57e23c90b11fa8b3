/** Resolving paths in a tree of links, with and without following symlinks. */
module Resolve {
  import opened Outcomes
  import opened Paths

  const MAX_SYMLINK_DEPTH: nat := 40

  type Link = nat

  /** A symlink's target may be unreadable. */
  datatype Kind = Folder | File | Symlink(target: Option<string>)

  /** A directory listing may fail at any entry. */
  datatype Entry = Broken | Child(link: Link)

  /** parent is None for a share root; name is None when it cannot be decrypted. */
  datatype Node = Node(kind: Kind, name: Option<string>, trashed: bool, parent: Option<Link>, entries: seq<Entry>)

  type Fs = seq<Node>

  datatype ResolveError = ErrNotAFolder | ErrFileNotFound | ErrSymlinkLoop | ErrUnreadable | ErrListing

  /** Links lead to nodes; a parent is a folder that existed before its child, and a listing
      yields the folder's own children. */
  ghost predicate WellFormed(fs: Fs) {
    && (forall l: Link | l < |fs| && fs[l].parent.Some? ::
          fs[l].parent.value < l && fs[fs[l].parent.value].kind.Folder?)
    && (forall l: Link, e | l < |fs| && e in fs[l].entries && e.Child? ::
          e.link < |fs| && fs[e.link].parent == Some(l))
  }

  function Parent(fs: Fs, l: Link): Link
    requires l < |fs|
  {
    match fs[l].parent case Some(p) => p case None => l
  }

  /** The uncached scan: the first child with the name that is neither trashed nor undecryptable;
      a failed entry before it fails the lookup. */
  function Scan(fs: Fs, entries: seq<Entry>, name: string): Result<Option<Link>, ResolveError> {
    if entries == [] then Ok(None)
    else
      match entries[0]
      case Broken => Err(ErrListing)
      case Child(c) =>
        if c < |fs| && !fs[c].trashed && fs[c].name == Some(name) && name != "." && name != ".." then Ok(Some(c))
        else Scan(fs, entries[1..], name)
  }

  function Lookup(fs: Fs, l: Link, name: string): Result<Option<Link>, ResolveError>
    requires l < |fs|
  {
    Scan(fs, fs[l].entries, name)
  }

  lemma {:induction false} ScanFinds(fs: Fs, entries: seq<Entry>, name: string)
    ensures Scan(fs, entries, name).Ok? && Scan(fs, entries, name).value.Some? ==>
              var c := Scan(fs, entries, name).value.value;
              && c < |fs| && Child(c) in entries && fs[c].name == Some(name) && !fs[c].trashed
              && name != "." && name != ".."
  {
    if entries != [] { ScanFinds(fs, entries[1..], name); }
  }

  lemma LookupFinds(fs: Fs, l: Link, name: string)
    requires WellFormed(fs) && l < |fs| && Lookup(fs, l, name).Ok? && Lookup(fs, l, name).value.Some?
    ensures var c := Lookup(fs, l, name).value.value;
            && c < |fs| && fs[c].name == Some(name) && Parent(fs, c) == l && !fs[c].trashed
            && name != "." && name != ".."
  {
    ScanFinds(fs, fs[l].entries, name);
  }

  /** An untrashed child shown under a name; "." and ".." are never looked up in a listing. */
  predicate Shows(fs: Fs, e: Entry, name: string) {
    e.Child? && e.link < |fs| && !fs[e.link].trashed && fs[e.link].name == Some(name) && name != "." && name != ".."
  }

  /** The lookup is decided by the first entry that failed or shows the name. */
  lemma {:induction false} ScanIsFirst(fs: Fs, entries: seq<Entry>, name: string, k: nat)
    requires k <= |entries| && forall j | 0 <= j < k :: entries[j].Child? && !Shows(fs, entries[j], name)
    ensures k == |entries| ==> Scan(fs, entries, name) == Ok(None)
    ensures k < |entries| && entries[k].Broken? ==> Scan(fs, entries, name) == Err(ErrListing)
    ensures k < |entries| && Shows(fs, entries[k], name) ==> Scan(fs, entries, name) == Ok(Some(entries[k].link))
  {
    if k > 0 {
      assert entries[0].Child? && !Shows(fs, entries[0], name);
      assert forall j | 0 <= j < k - 1 :: entries[1..][j] == entries[j + 1];
      ScanIsFirst(fs, entries[1..], name, k - 1);
    }
  }

  // ----- without symlinks -----

  /** The child a plain component names. */
  function Descend(fs: Fs, cur: Link, part: string): (r: Result<Link, ResolveError>)
    requires cur < |fs|
    ensures r.Ok? ==> r.value < |fs|
  {
    if !fs[cur].kind.Folder? then Err(ErrNotAFolder)
    else
      match Lookup(fs, cur, part)
      case Err(e) => Err(e)
      case Ok(None) => Err(ErrFileNotFound)
      case Ok(Some(c)) => ScanFinds(fs, fs[cur].entries, part); Ok(c)
  }

  function ResolveParts(fs: Fs, cur: Link, parts: seq<string>): (r: Result<Link, ResolveError>)
    requires cur < |fs| && WellFormed(fs)
    ensures r.Ok? ==> r.value < |fs|
    decreases |parts|
  {
    if parts == [] then Ok(cur)
    else if parts[0] == "" || parts[0] == "." then ResolveParts(fs, cur, parts[1..])
    else if parts[0] == ".." then ResolveParts(fs, Parent(fs, cur), parts[1..])
    else
      match Descend(fs, cur, parts[0])
      case Err(e) => Err(e)
      case Ok(c) => ResolveParts(fs, c, parts[1..])
  }

  function ResolvePath(fs: Fs, cur: Link, path: string): Result<Link, ResolveError>
    requires cur < |fs| && WellFormed(fs)
  {
    ResolveParts(fs, cur, PathComponents(path))
  }

  /** The loop of the source. */
  method ResolvePartsLoop(fs: Fs, l: Link, parts: seq<string>) returns (r: Result<Link, ResolveError>)
    requires l < |fs| && WellFormed(fs)
    ensures r == ResolveParts(fs, l, parts)
  {
    var current: Link := l;
    for i := 0 to |parts|
      invariant current < |fs|
      invariant ResolveParts(fs, current, parts[i..]) == ResolveParts(fs, l, parts)
    {
      var part := parts[i];
      assert parts[i..][1..] == parts[i + 1..];
      if part == "" || part == "." { continue; }
      if part == ".." {
        current := Parent(fs, current);
      } else {
        if !fs[current].kind.Folder? { return Err(ErrNotAFolder); }
        var child := Lookup(fs, current, part);
        if child.Err? { return Err(child.error); }
        if child.value.None? { return Err(ErrFileNotFound); }
        ScanFinds(fs, fs[current].entries, part);
        current := child.value.value;
      }
    }
    return Ok(current);
  }

  // ----- following symlinks -----

  predicate IsSymlink(fs: Fs, l: Link)
    requires l < |fs|
  {
    fs[l].kind.Symlink?
  }

  /** share is the root absolute targets resolve against, if there is one. */
  ghost predicate ShareOk(fs: Fs, share: Option<Link>) {
    share.Some? ==> share.value < |fs| && fs[share.value].kind.Folder?
  }

  function Walk(fs: Fs, share: Option<Link>, cur: Link, parts: seq<string>, followFinal: bool, depth: nat): (r: Result<Link, ResolveError>)
    requires cur < |fs| && WellFormed(fs) && ShareOk(fs, share)
    requires depth <= MAX_SYMLINK_DEPTH
    ensures r.Ok? ==> r.value < |fs|
    decreases MAX_SYMLINK_DEPTH - depth, |parts|, 1
  {
    if parts == [] then Ok(cur)
    else if parts[0] == "" || parts[0] == "." then Walk(fs, share, cur, parts[1..], followFinal, depth)
    else if parts[0] == ".." then Walk(fs, share, Parent(fs, cur), parts[1..], followFinal, depth)
    else
      match Descend(fs, cur, parts[0])
      case Err(e) => Err(e)
      case Ok(child) =>
        if IsSymlink(fs, child) && (|parts| > 1 || followFinal) then
          match FollowSymlink(fs, share, cur, child, depth)
          case Err(e) => Err(e)
          case Ok(resolved) => Walk(fs, share, resolved, parts[1..], followFinal, depth)
        else Walk(fs, share, child, parts[1..], followFinal, depth)
  }

  /** Where a symlink leads, with its own final component followed. */
  function FollowSymlink(fs: Fs, share: Option<Link>, parent: Link, symlink: Link, depth: nat): (r: Result<Link, ResolveError>)
    requires parent < |fs| && symlink < |fs| && IsSymlink(fs, symlink) && WellFormed(fs) && ShareOk(fs, share)
    requires depth <= MAX_SYMLINK_DEPTH
    ensures r.Ok? ==> r.value < |fs|
    decreases MAX_SYMLINK_DEPTH - depth, 0, 0
  {
    if depth + 1 > MAX_SYMLINK_DEPTH then Err(ErrSymlinkLoop)
    else
      match fs[symlink].kind.target
      case None => Err(ErrUnreadable)
      case Some(target) =>
        if "/" <= target then
          match share
          case None => Err(ErrFileNotFound)
          case Some(root) => Walk(fs, share, root, PathComponents(target), true, depth + 1)
        else Walk(fs, share, parent, PathComponents(target), true, depth + 1)
  }

  function ResolveFollow(fs: Fs, share: Option<Link>, root: Link, path: string, noFollow: bool): Result<Link, ResolveError>
    requires root < |fs| && WellFormed(fs) && ShareOk(fs, share)
  {
    Walk(fs, share, root, PathComponents(path), !noFollow, 0)
  }

  /** The loop of the source; it ends on every tree, cyclic links included, because each symlink
      followed uses up one step of depth. */
  method WalkParts(fs: Fs, share: Option<Link>, start: Link, parts: seq<string>, followFinal: bool, depth: nat)
    returns (r: Result<Link, ResolveError>)
    requires start < |fs| && WellFormed(fs) && ShareOk(fs, share) && depth <= MAX_SYMLINK_DEPTH
    ensures r == Walk(fs, share, start, parts, followFinal, depth)
    decreases MAX_SYMLINK_DEPTH - depth, 1
  {
    var current: Link := start;
    for i := 0 to |parts|
      invariant current < |fs|
      invariant Walk(fs, share, current, parts[i..], followFinal, depth) == Walk(fs, share, start, parts, followFinal, depth)
    {
      var part := parts[i];
      assert parts[i..][1..] == parts[i + 1..];
      if part == "" || part == "." { continue; }
      if part == ".." {
        current := Parent(fs, current);
        continue;
      }
      if !fs[current].kind.Folder? { return Err(ErrNotAFolder); }
      var found := Lookup(fs, current, part);
      if found.Err? { return Err(found.error); }
      if found.value.None? { return Err(ErrFileNotFound); }
      ScanFinds(fs, fs[current].entries, part);
      var child := found.value.value;
      var isFinal := i == |parts| - 1;
      if IsSymlink(fs, child) && (!isFinal || followFinal) {
        var resolved := Follow(fs, share, current, child, depth);
        if resolved.Err? { return resolved; }
        current := resolved.value;
        continue;
      }
      current := child;
    }
    return Ok(current);
  }

  method Follow(fs: Fs, share: Option<Link>, parent: Link, symlink: Link, depth: nat) returns (r: Result<Link, ResolveError>)
    requires parent < |fs| && symlink < |fs| && IsSymlink(fs, symlink) && WellFormed(fs) && ShareOk(fs, share)
    requires depth <= MAX_SYMLINK_DEPTH
    ensures r == FollowSymlink(fs, share, parent, symlink, depth)
    decreases MAX_SYMLINK_DEPTH - depth, 0
  {
    if depth + 1 > MAX_SYMLINK_DEPTH { return Err(ErrSymlinkLoop); }
    var target := fs[symlink].kind.target;
    if target.None? { return Err(ErrUnreadable); }
    var base := parent;
    if "/" <= target.value {
      if share.None? { return Err(ErrFileNotFound); }
      base := share.value;
    }
    r := WalkParts(fs, share, base, PathComponents(target.value), true, depth + 1);
  }

  // ----- compositionality -----

  /** Walking p and then q is walking p with its final symlink followed, and from there q, with
      the same errors. */
  lemma {:induction false} WalkComposes(fs: Fs, share: Option<Link>, cur: Link, p: seq<string>, q: seq<string>, followFinal: bool, depth: nat)
    requires cur < |fs| && WellFormed(fs) && ShareOk(fs, share) && depth <= MAX_SYMLINK_DEPTH && q != []
    ensures Walk(fs, share, cur, p + q, followFinal, depth) ==
            match Walk(fs, share, cur, p, true, depth)
            case Err(e) => Err(e)
            case Ok(mid) => Walk(fs, share, mid, q, followFinal, depth)
    decreases |p|
  {
    if p == [] {
      assert p + q == q;
    } else {
      assert (p + q)[0] == p[0] && (p + q)[1..] == p[1..] + q;
      if p[0] == "" || p[0] == "." {
        WalkComposes(fs, share, cur, p[1..], q, followFinal, depth);
      } else if p[0] == ".." {
        WalkComposes(fs, share, Parent(fs, cur), p[1..], q, followFinal, depth);
      } else if Descend(fs, cur, p[0]).Ok? {
        var child := Descend(fs, cur, p[0]).value;
        if !IsSymlink(fs, child) {
          WalkComposes(fs, share, child, p[1..], q, followFinal, depth);
        } else if FollowSymlink(fs, share, cur, child, depth).Ok? {
          WalkComposes(fs, share, FollowSymlink(fs, share, cur, child, depth).value, p[1..], q, followFinal, depth);
        }
      }
    }
  }

  // ----- the last component -----

  /** Without following, the last component names the child itself, symlink or not: the path
      leads where its front leads with symlinks followed, and from there to the child. */
  lemma LastUnfollowed(fs: Fs, share: Option<Link>, cur: Link, p: seq<string>, name: string, depth: nat)
    requires cur < |fs| && WellFormed(fs) && ShareOk(fs, share) && depth <= MAX_SYMLINK_DEPTH
    requires name != "" && name != "." && name != ".."
    ensures Walk(fs, share, cur, p + [name], false, depth) ==
            match Walk(fs, share, cur, p, true, depth)
            case Err(e) => Err(e)
            case Ok(mid) => Descend(fs, mid, name)
  {
    WalkComposes(fs, share, cur, p, [name], false, depth);
    assert [name][1..] == [];
  }

  /** With following, a symlink in the last place gives way to what its target leads to. */
  lemma LastFollowed(fs: Fs, share: Option<Link>, cur: Link, p: seq<string>, name: string, depth: nat, mid: Link, child: Link)
    requires cur < |fs| && WellFormed(fs) && ShareOk(fs, share) && depth <= MAX_SYMLINK_DEPTH
    requires name != "" && name != "." && name != ".."
    requires Walk(fs, share, cur, p, true, depth) == Ok(mid) && Descend(fs, mid, name) == Ok(child)
    ensures Walk(fs, share, cur, p + [name], true, depth) ==
            if IsSymlink(fs, child) then FollowSymlink(fs, share, mid, child, depth) else Ok(child)
  {
    WalkComposes(fs, share, cur, p, [name], true, depth);
    assert [name][1..] == [];
  }

  /** The two modes of the resolver agree on a path to a child exactly when the child is no
      symlink; the target of a symlink never leads back to the symlink itself. */
  lemma ModesAgree(fs: Fs, share: Option<Link>, root: Link, path: string, p: seq<string>, name: string, mid: Link, child: Link)
    requires root < |fs| && WellFormed(fs) && ShareOk(fs, share)
    requires PathComponents(path) == p + [name] && name != "" && name != "." && name != ".."
    requires Walk(fs, share, root, p, true, 0) == Ok(mid) && Descend(fs, mid, name) == Ok(child)
    ensures ResolveFollow(fs, share, root, path, true) == Ok(child)
    ensures ResolveFollow(fs, share, root, path, false) == Ok(child) <==> !IsSymlink(fs, child)
    ensures IsSymlink(fs, child) ==>
              ResolveFollow(fs, share, root, path, false) == FollowSymlink(fs, share, mid, child, 0) != Ok(child)
  {
    LastUnfollowed(fs, share, root, p, name, 0);
    LastFollowed(fs, share, root, p, name, 0, mid, child);
    if IsSymlink(fs, child) && FollowSymlink(fs, share, mid, child, 0).Ok? {
      TargetIsNoSymlink(fs, share, mid, child, 0);
    }
  }

  /** Why a symlink cannot be followed: the fortieth level is the last, then an unreadable target,
      then an absolute one without a share root. */
  lemma FollowRefusals(fs: Fs, share: Option<Link>, parent: Link, symlink: Link, depth: nat)
    requires parent < |fs| && symlink < |fs| && IsSymlink(fs, symlink) && WellFormed(fs) && ShareOk(fs, share)
    requires depth <= 40
    ensures var r := FollowSymlink(fs, share, parent, symlink, depth);
            var target := fs[symlink].kind.target;
            && (depth == 40 ==> r == Err(ErrSymlinkLoop))
            && (depth < 40 && target == None ==> r == Err(ErrUnreadable))
            && (depth < 40 && target.Some? && target.value != "" && target.value[0] == '/' && share == None ==>
                  r == Err(ErrFileNotFound))
  {
  }

  /** A plain component fails in a node that is no folder, where the listing fails before the
      name, and where no entry shows the name; each has its own error. */
  lemma DescendErrors(fs: Fs, cur: Link, name: string)
    requires cur < |fs|
    ensures var r := Descend(fs, cur, name);
            && (!fs[cur].kind.Folder? ==> r == Err(ErrNotAFolder))
            && (fs[cur].kind.Folder? && Lookup(fs, cur, name) == Ok(None) ==> r == Err(ErrFileNotFound))
            && (fs[cur].kind.Folder? && Lookup(fs, cur, name).Err? ==> r == Err(ErrListing))
            && (fs[cur].kind.Folder? && Lookup(fs, cur, name).Ok? && Lookup(fs, cur, name).value.Some? ==>
                  r == Ok(Lookup(fs, cur, name).value.value))
  {
    ScanFails(fs, fs[cur].entries, name);
  }

  lemma {:induction false} ScanFails(fs: Fs, entries: seq<Entry>, name: string)
    ensures Scan(fs, entries, name).Err? ==> Scan(fs, entries, name).error == ErrListing
  {
    if entries != [] { ScanFails(fs, entries[1..], name); }
  }

  // ----- less depth used, same result -----

  /** What resolves at some depth resolves to the same link at any smaller depth. */
  lemma {:induction false} WalkMonotone(fs: Fs, share: Option<Link>, cur: Link, parts: seq<string>, followFinal: bool, depth: nat, less: nat)
    requires cur < |fs| && WellFormed(fs) && ShareOk(fs, share) && less <= depth <= MAX_SYMLINK_DEPTH
    requires Walk(fs, share, cur, parts, followFinal, depth).Ok?
    ensures Walk(fs, share, cur, parts, followFinal, less) == Walk(fs, share, cur, parts, followFinal, depth)
    decreases MAX_SYMLINK_DEPTH - depth, |parts|, 1
  {
    if parts == [] {
    } else if parts[0] == "" || parts[0] == "." {
      WalkMonotone(fs, share, cur, parts[1..], followFinal, depth, less);
    } else if parts[0] == ".." {
      WalkMonotone(fs, share, Parent(fs, cur), parts[1..], followFinal, depth, less);
    } else {
      var child := Descend(fs, cur, parts[0]).value;
      if IsSymlink(fs, child) && (|parts| > 1 || followFinal) {
        FollowMonotone(fs, share, cur, child, depth, less);
        WalkMonotone(fs, share, FollowSymlink(fs, share, cur, child, depth).value, parts[1..], followFinal, depth, less);
      } else {
        WalkMonotone(fs, share, child, parts[1..], followFinal, depth, less);
      }
    }
  }

  lemma {:induction false} FollowMonotone(fs: Fs, share: Option<Link>, parent: Link, symlink: Link, depth: nat, less: nat)
    requires parent < |fs| && symlink < |fs| && IsSymlink(fs, symlink) && WellFormed(fs) && ShareOk(fs, share)
    requires less <= depth <= MAX_SYMLINK_DEPTH && FollowSymlink(fs, share, parent, symlink, depth).Ok?
    ensures FollowSymlink(fs, share, parent, symlink, less) == FollowSymlink(fs, share, parent, symlink, depth)
    decreases MAX_SYMLINK_DEPTH - depth, 0, 0
  {
    var target := fs[symlink].kind.target.value;
    var base := if "/" <= target then share.value else parent;
    FollowIsWalk(fs, share, parent, symlink, depth, target, base);
    FollowIsWalk(fs, share, parent, symlink, less, target, base);
    WalkMonotone(fs, share, base, PathComponents(target), true, depth + 1, less + 1);
  }

  /** Following a readable target within the budget is walking it, one level deeper. */
  lemma FollowIsWalk(fs: Fs, share: Option<Link>, parent: Link, symlink: Link, depth: nat, target: string, base: Link)
    requires parent < |fs| && symlink < |fs| && IsSymlink(fs, symlink) && WellFormed(fs) && ShareOk(fs, share)
    requires depth < MAX_SYMLINK_DEPTH && fs[symlink].kind.target == Some(target)
    requires if "/" <= target then share == Some(base) else base == parent
    ensures FollowSymlink(fs, share, parent, symlink, depth) == Walk(fs, share, base, PathComponents(target), true, depth + 1)
  {
  }

  // ----- a followed result is no symlink -----

  lemma {:induction false} FollowedIsNoSymlink(fs: Fs, share: Option<Link>, cur: Link, parts: seq<string>, depth: nat)
    requires cur < |fs| && WellFormed(fs) && ShareOk(fs, share) && depth <= MAX_SYMLINK_DEPTH
    requires !IsSymlink(fs, cur) && Walk(fs, share, cur, parts, true, depth).Ok?
    ensures !IsSymlink(fs, Walk(fs, share, cur, parts, true, depth).value)
    decreases MAX_SYMLINK_DEPTH - depth, |parts|, 1
  {
    if parts == [] {
    } else if parts[0] == "" || parts[0] == "." {
      FollowedIsNoSymlink(fs, share, cur, parts[1..], depth);
    } else if parts[0] == ".." {
      FollowedIsNoSymlink(fs, share, Parent(fs, cur), parts[1..], depth);
    } else {
      var child := Descend(fs, cur, parts[0]).value;
      if IsSymlink(fs, child) {
        TargetIsNoSymlink(fs, share, cur, child, depth);
        FollowedIsNoSymlink(fs, share, FollowSymlink(fs, share, cur, child, depth).value, parts[1..], depth);
      } else {
        FollowedIsNoSymlink(fs, share, child, parts[1..], depth);
      }
    }
  }

  lemma {:induction false} TargetIsNoSymlink(fs: Fs, share: Option<Link>, parent: Link, symlink: Link, depth: nat)
    requires parent < |fs| && symlink < |fs| && IsSymlink(fs, symlink) && WellFormed(fs) && ShareOk(fs, share)
    requires depth <= MAX_SYMLINK_DEPTH && fs[parent].kind.Folder? && FollowSymlink(fs, share, parent, symlink, depth).Ok?
    ensures !IsSymlink(fs, FollowSymlink(fs, share, parent, symlink, depth).value)
    decreases MAX_SYMLINK_DEPTH - depth, 0, 0
  {
    var target := fs[symlink].kind.target.value;
    var base := if "/" <= target then share.value else parent;
    FollowedIsNoSymlink(fs, share, base, PathComponents(target), depth + 1);
  }

  // ----- symlink-free trees -----

  /** Where there are no symlinks, following them changes nothing. */
  lemma {:induction false} WalkIsResolveParts(fs: Fs, share: Option<Link>, cur: Link, parts: seq<string>, followFinal: bool, depth: nat)
    requires cur < |fs| && WellFormed(fs) && ShareOk(fs, share) && depth <= MAX_SYMLINK_DEPTH
    requires forall l: Link | l < |fs| :: !IsSymlink(fs, l)
    ensures Walk(fs, share, cur, parts, followFinal, depth) == ResolveParts(fs, cur, parts)
    decreases |parts|
  {
    if parts == [] {
    } else if parts[0] == "" || parts[0] == "." {
      WalkIsResolveParts(fs, share, cur, parts[1..], followFinal, depth);
    } else if parts[0] == ".." {
      WalkIsResolveParts(fs, share, Parent(fs, cur), parts[1..], followFinal, depth);
    } else if Descend(fs, cur, parts[0]).Ok? {
      WalkIsResolveParts(fs, share, Descend(fs, cur, parts[0]).value, parts[1..], followFinal, depth);
    }
  }

  // ----- chains of symlinks -----

  /** In folder dir, names[0] to names[k - 1] are symlinks, each to the next name, and names[k] is
      something else. */
  ghost predicate LinkChain(fs: Fs, dir: Link, names: seq<string>)
    requires dir < |fs|
  {
    && names != [] && fs[dir].kind.Folder? && AllClean(names)
    && (forall i | 0 <= i < |names| :: Descend(fs, dir, names[i]).Ok?)
    && (forall i | 0 <= i < |names| - 1 :: fs[Descend(fs, dir, names[i]).value].kind == Symlink(Some(names[i + 1])))
    && !IsSymlink(fs, Descend(fs, dir, names[|names| - 1]).value)
  }

  lemma SingleComponent(name: string)
    requires IsClean(name)
    ensures PathComponents(name) == [name]
  {
    NormalComponents([name], false);
    assert Canonical([name], false) == name;
  }

  lemma NotAbsolute(name: string)
    requires IsClean(name)
    ensures !("/" <= name)
  {
    assert name[0] in name;
  }

  lemma OneComponent(fs: Fs, share: Option<Link>, dir: Link, name: string, depth: nat)
    requires dir < |fs| && WellFormed(fs) && ShareOk(fs, share) && depth <= MAX_SYMLINK_DEPTH
    requires IsClean(name) && Descend(fs, dir, name).Ok?
    ensures var child := Descend(fs, dir, name).value;
            Walk(fs, share, dir, [name], true, depth) ==
            if IsSymlink(fs, child) then FollowSymlink(fs, share, dir, child, depth) else Ok(child)
  {
    assert [name][1..] == [];
  }

  /** A chain of symlinks resolves to its end exactly when the depth budget covers its length:
      forty links do, forty-one do not. */
  lemma {:induction false} ChainWithinBudget(fs: Fs, share: Option<Link>, dir: Link, names: seq<string>, depth: nat)
    requires dir < |fs| && WellFormed(fs) && ShareOk(fs, share) && depth <= MAX_SYMLINK_DEPTH
    requires LinkChain(fs, dir, names)
    ensures Walk(fs, share, dir, [names[0]], true, depth) ==
            if depth + |names| - 1 <= MAX_SYMLINK_DEPTH then Ok(Descend(fs, dir, names[|names| - 1]).value)
            else Err(ErrSymlinkLoop)
    decreases |names|
  {
    assert IsClean(names[0]) by { assert names[0] in names; }
    if |names| == 1 {
      OneComponent(fs, share, dir, names[0], depth);
    } else {
      assert IsClean(names[1]) by { assert names[1] in names; }
      assert fs[Descend(fs, dir, names[0]).value].kind == Symlink(Some(names[0 + 1]));
      ChainStep(fs, share, dir, names[0], names[1], depth);
      if depth < MAX_SYMLINK_DEPTH {
        ChainTail(fs, dir, names);
        ChainWithinBudget(fs, share, dir, names[1..], depth + 1);
      }
    }
  }

  lemma ChainTail(fs: Fs, dir: Link, names: seq<string>)
    requires dir < |fs| && LinkChain(fs, dir, names) && |names| > 1
    ensures LinkChain(fs, dir, names[1..])
  {
    var rest := names[1..];
    assert forall p | p in rest :: p in names;
    forall i | 0 <= i < |rest| ensures Descend(fs, dir, rest[i]).Ok? { assert rest[i] == names[i + 1]; }
    forall i | 0 <= i < |rest| - 1
      ensures fs[Descend(fs, dir, rest[i]).value].kind == Symlink(Some(rest[i + 1]))
    {
      var j := i + 1;
      assert rest[i] == names[j] && rest[i + 1] == names[j + 1];
    }
  }

  /** One link of a chain: the next name in the same folder, one level deeper. */
  lemma ChainStep(fs: Fs, share: Option<Link>, dir: Link, name: string, next: string, depth: nat)
    requires dir < |fs| && WellFormed(fs) && ShareOk(fs, share) && depth <= MAX_SYMLINK_DEPTH
    requires IsClean(name) && IsClean(next) && Descend(fs, dir, name).Ok?
    requires fs[Descend(fs, dir, name).value].kind == Symlink(Some(next))
    ensures Walk(fs, share, dir, [name], true, depth) ==
            if depth < MAX_SYMLINK_DEPTH then Walk(fs, share, dir, [next], true, depth + 1) else Err(ErrSymlinkLoop)
  {
    OneComponent(fs, share, dir, name, depth);
    SingleComponent(next);
    NotAbsolute(next);
  }

  /** A symlink to itself is reported as a loop from every depth. */
  lemma {:induction false} SelfLoop(fs: Fs, share: Option<Link>, dir: Link, name: string, depth: nat)
    requires dir < |fs| && WellFormed(fs) && ShareOk(fs, share) && depth <= MAX_SYMLINK_DEPTH
    requires IsClean(name) && Descend(fs, dir, name).Ok?
    requires fs[Descend(fs, dir, name).value].kind == Symlink(Some(name))
    ensures Walk(fs, share, dir, [name], true, depth) == Err(ErrSymlinkLoop)
    decreases MAX_SYMLINK_DEPTH - depth
  {
    ChainStep(fs, share, dir, name, name, depth);
    if depth < MAX_SYMLINK_DEPTH { SelfLoop(fs, share, dir, name, depth + 1); }
  }
}
