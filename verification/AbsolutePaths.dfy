/** What a path means: absolute paths of links, and normalization against resolution. */
module AbsolutePaths {
  import opened Outcomes
  import opened Paths
  import opened Resolve

  // ----- resolution step by step -----

  lemma {:induction false} ResolveAppend(fs: Fs, cur: Link, p: seq<string>, q: seq<string>)
    requires cur < |fs| && WellFormed(fs)
    ensures ResolveParts(fs, cur, p + q) ==
            match ResolveParts(fs, cur, p)
            case Err(e) => Err(e)
            case Ok(mid) => ResolveParts(fs, mid, q)
    decreases |p|
  {
    if p == [] {
      assert p + q == q;
    } else {
      assert (p + q)[0] == p[0] && (p + q)[1..] == p[1..] + q;
      if p[0] == "" || p[0] == "." {
        ResolveAppend(fs, cur, p[1..], q);
      } else if p[0] == ".." {
        ResolveAppend(fs, Parent(fs, cur), p[1..], q);
      } else if Descend(fs, cur, p[0]).Ok? {
        ResolveAppend(fs, Descend(fs, cur, p[0]).value, p[1..], q);
      }
    }
  }

  lemma {:induction false} EmptyPartsSkipped(fs: Fs, cur: Link, parts: seq<string>)
    requires cur < |fs| && WellFormed(fs)
    ensures ResolveParts(fs, cur, NonEmpty(parts)) == ResolveParts(fs, cur, parts)
    decreases |parts|
  {
    if parts == [] {
    } else if parts[0] == "" {
      EmptyPartsSkipped(fs, cur, parts[1..]);
    } else {
      assert NonEmpty(parts)[0] == parts[0] && NonEmpty(parts)[1..] == NonEmpty(parts[1..]);
      if parts[0] == "." {
        EmptyPartsSkipped(fs, cur, parts[1..]);
      } else if parts[0] == ".." {
        EmptyPartsSkipped(fs, Parent(fs, cur), parts[1..]);
      } else if Descend(fs, cur, parts[0]).Ok? {
        EmptyPartsSkipped(fs, Descend(fs, cur, parts[0]).value, parts[1..]);
      }
    }
  }

  lemma OneName(fs: Fs, cur: Link, name: string)
    requires cur < |fs| && WellFormed(fs) && IsClean(name)
    ensures ResolveParts(fs, cur, [name]) == Descend(fs, cur, name)
  {
    assert [name][1..] == [];
  }

  lemma DescendIsChild(fs: Fs, cur: Link, name: string)
    requires cur < |fs| && WellFormed(fs) && Descend(fs, cur, name).Ok?
    ensures var c := Descend(fs, cur, name).value;
            c < |fs| && fs[c].name == Some(name) && fs[c].parent == Some(cur)
  {
    LookupFinds(fs, cur, name);
    ScanFinds(fs, fs[cur].entries, name);
  }

  /** Going into a child and back up leads where one was. */
  lemma UpAgain(fs: Fs, cur: Link, stack: seq<string>, name: string)
    requires cur < |fs| && WellFormed(fs) && IsClean(name) && ResolveParts(fs, cur, stack + [name]).Ok?
    ensures ResolveParts(fs, cur, stack).Ok?
    ensures Parent(fs, ResolveParts(fs, cur, stack + [name]).value) == ResolveParts(fs, cur, stack).value
  {
    ResolveAppend(fs, cur, stack, [name]);
    var mid := ResolveParts(fs, cur, stack).value;
    OneName(fs, mid, name);
    DescendIsChild(fs, mid, name);
  }

  // ----- normalization preserves meaning -----

  /** One component: the stack it leaves leads where the component leads from the stack. */
  lemma PushPreserves(fs: Fs, root: Link, stack: seq<string>, p: string)
    requires root < |fs| && WellFormed(fs) && fs[root].parent.None? && AllClean(stack) && '/' !in p
    requires ResolveParts(fs, root, stack + [p]).Ok?
    ensures ResolveParts(fs, root, Push(stack, p)) == ResolveParts(fs, root, stack + [p])
  {
    ResolveAppend(fs, root, stack, [p]);
    assert [p][1..] == [];
    if p == ".." && stack != [] {
      var init, last := stack[..|stack| - 1], stack[|stack| - 1];
      assert stack == init + [last];
      assert IsClean(last) by { assert last in stack; }
      UpAgain(fs, root, init, last);
    }
  }

  /** A path that resolves from the share root resolves to the same link after its dots are
      worked out. */
  lemma {:induction false} ReducePreserves(fs: Fs, root: Link, stack: seq<string>, parts: seq<string>)
    requires root < |fs| && WellFormed(fs) && fs[root].parent.None? && AllClean(stack) && NoSlash(parts)
    requires ResolveParts(fs, root, stack + parts).Ok?
    ensures ResolveParts(fs, root, Reduce(stack, parts)) == ResolveParts(fs, root, stack + parts)
    decreases |parts|
  {
    if parts == [] {
      assert stack + parts == stack;
    } else {
      var p, rest := parts[0], parts[1..];
      assert stack + parts == (stack + [p]) + rest;
      ResolveAppend(fs, root, stack + [p], rest);
      PushPreserves(fs, root, stack, p);
      ResolveAppend(fs, root, Push(stack, p), rest);
      ReducePreserves(fs, root, Push(stack, p), rest);
    }
  }

  lemma SegmentsAndComponents(raw: string)
    ensures NonEmpty(PathComponents(raw)) == NonEmpty(Split(TrimPrefix(raw)))
  {
    ComponentsNonEmpty(raw);
    if raw != "" && raw[0] == '/' {
      SplitLeading(raw[1..]);
      assert raw == "/" + raw[1..];
      NonEmptyAppend([""], Split(raw[1..]));
    }
  }

  /** If a path resolves from the share root, its normal form resolves to the same link; and a
      path that normalization rejects as empty leads to the root. */
  lemma NormalizePreservesMeaning(fs: Fs, root: Link, raw: string)
    requires root < |fs| && WellFormed(fs) && fs[root].parent.None? && ResolvePath(fs, root, raw).Ok?
    ensures match Normalized(raw)
            case Ok(s) => ResolvePath(fs, root, s) == ResolvePath(fs, root, raw)
            case Err(_) => ResolvePath(fs, root, raw) == Ok(root)
  {
    var segments := Split(TrimPrefix(raw));
    SegmentsAndComponents(raw);
    EmptyPartsSkipped(fs, root, segments);
    EmptyPartsSkipped(fs, root, PathComponents(raw));
    SplitNoSlash(TrimPrefix(raw));
    assert [] + segments == segments;
    ReducePreserves(fs, root, [], segments);
    NormalForm(raw);
    var ps := Reduce([], segments);
    if ps != [] { NormalComponents(ps, EndsWithSlash(TrimPrefix(raw))); }
  }

  /** The same for the resolver that follows symlinks, on trees without any. */
  lemma NormalizePreservesFollowed(fs: Fs, share: Option<Link>, root: Link, raw: string, noFollow: bool)
    requires root < |fs| && WellFormed(fs) && ShareOk(fs, share) && fs[root].parent.None?
    requires forall l: Link | l < |fs| :: !IsSymlink(fs, l)
    requires ResolveFollow(fs, share, root, raw, noFollow).Ok? && Normalized(raw).Ok?
    ensures ResolveFollow(fs, share, root, Normalized(raw).value, noFollow) == ResolveFollow(fs, share, root, raw, noFollow)
  {
    WalkIsResolveParts(fs, share, root, PathComponents(raw), !noFollow, 0);
    WalkIsResolveParts(fs, share, root, PathComponents(Normalized(raw).value), !noFollow, 0);
    NormalizePreservesMeaning(fs, root, raw);
  }

  /** No component that a path takes back is missing from the end of the path: every stack on
      the way is a beginning of the last one. */
  ghost predicate TakesNothingBack(stack: seq<string>, parts: seq<string>) {
    forall k | 0 <= k <= |parts| :: Reduce(stack, parts[..k]) <= Reduce(stack, parts)
  }

  /** The segments that normalization reads. */
  function Segments(raw: string): seq<string> {
    Split(TrimPrefix(raw))
  }

  /** On this tree a path and its normal form lead to the same place, or fail alike; a rejected
      path leads to the root. */
  predicate NormalAgrees(fs: Fs, root: Link, raw: string)
    requires root < |fs| && WellFormed(fs)
  {
    match Normalized(raw)
    case Ok(s) => ResolvePath(fs, root, raw) == ResolvePath(fs, root, s)
    case Err(_) => ResolvePath(fs, root, raw) == Ok(root)
  }

  /** What both sides resolve: the segments, and what is left of them. */
  lemma NormalAgreesMeans(fs: Fs, root: Link, raw: string)
    requires root < |fs| && WellFormed(fs)
    ensures NormalAgrees(fs, root, raw) <==>
            ResolveParts(fs, root, Segments(raw)) == ResolveParts(fs, root, Reduce([], Segments(raw)))
  {
    var segments := Segments(raw);
    SegmentsAndComponents(raw);
    EmptyPartsSkipped(fs, root, segments);
    EmptyPartsSkipped(fs, root, PathComponents(raw));
    NormalForm(raw);
    var ps := Reduce([], segments);
    if ps != [] { NormalComponents(ps, EndsWithSlash(TrimPrefix(raw))); }
  }

  /** One component, on a path that may fail: if a beginning of the final stack fails, so does
      the final stack, in the same way. */
  lemma PushAgrees(fs: Fs, root: Link, stack: seq<string>, p: string, rest: seq<string>)
    requires root < |fs| && WellFormed(fs) && fs[root].parent.None? && AllClean(stack) && '/' !in p
    requires ResolveParts(fs, root, stack).Ok?
    ensures ResolveParts(fs, root, stack + ([p] + rest)) == ResolveParts(fs, root, Push(stack, p) + rest)
  {
    assert stack + ([p] + rest) == (stack + [p]) + rest;
    ResolveAppend(fs, root, stack + [p], rest);
    ResolveAppend(fs, root, Push(stack, p), rest);
    if IsClean(p) {
      assert Push(stack, p) == stack + [p];
    } else {
      DotsResolve(fs, root, stack, p);
      PushPreserves(fs, root, stack, p);
    }
  }

  lemma DotsResolve(fs: Fs, root: Link, stack: seq<string>, p: string)
    requires root < |fs| && WellFormed(fs) && ResolveParts(fs, root, stack).Ok?
    requires p == "" || p == "." || p == ".."
    ensures ResolveParts(fs, root, stack + [p]).Ok?
  {
    ResolveAppend(fs, root, stack, [p]);
    assert [p][1..] == [];
  }

  lemma BeginningFails(fs: Fs, root: Link, stack: seq<string>, path: seq<string>)
    requires root < |fs| && WellFormed(fs) && stack <= path && ResolveParts(fs, root, stack).Err?
    ensures ResolveParts(fs, root, path) == ResolveParts(fs, root, stack)
  {
    assert path == stack + path[|stack|..];
    ResolveAppend(fs, root, stack, path[|stack|..]);
  }

  lemma {:induction false} ReduceAgrees(fs: Fs, root: Link, stack: seq<string>, parts: seq<string>)
    requires root < |fs| && WellFormed(fs) && fs[root].parent.None? && AllClean(stack) && NoSlash(parts)
    requires TakesNothingBack(stack, parts)
    ensures ResolveParts(fs, root, stack + parts) == ResolveParts(fs, root, Reduce(stack, parts))
    decreases |parts|
  {
    if parts == [] {
      assert stack + parts == stack;
    } else if ResolveParts(fs, root, stack).Err? {
      assert Reduce(stack, parts[..0]) == stack;
      BeginningFails(fs, root, stack, Reduce(stack, parts));
      BeginningFails(fs, root, stack, stack + parts);
    } else {
      var p, rest := parts[0], parts[1..];
      assert parts == [p] + rest;
      PushAgrees(fs, root, stack, p, rest);
      RestTakesNothingBack(stack, parts);
      ReduceAgrees(fs, root, Push(stack, p), rest);
    }
  }

  lemma RestTakesNothingBack(stack: seq<string>, parts: seq<string>)
    requires TakesNothingBack(stack, parts) && parts != []
    ensures TakesNothingBack(Push(stack, parts[0]), parts[1..])
  {
    var rest := parts[1..];
    forall k | 0 <= k <= |rest| ensures Reduce(Push(stack, parts[0]), rest[..k]) <= Reduce(Push(stack, parts[0]), rest) {
      var head := parts[..k + 1];
      assert head[0] == parts[0] && head[1..] == rest[..k];
      assert Reduce(stack, head) == Reduce(Push(stack, parts[0]), rest[..k]);
    }
  }

  /** A tree that holds one chain of folders and nothing else. */
  function ChainNode(ps: seq<string>, i: nat): Node
    requires i <= |ps|
  {
    Node(Folder, Some(if i == 0 then "root" else ps[i - 1]), false, if i == 0 then None else Some(i - 1),
         if i < |ps| then [Child(i + 1)] else [])
  }

  function ChainNodes(ps: seq<string>, n: nat): (fs: Fs)
    requires n <= |ps| + 1
    ensures |fs| == n && forall i | 0 <= i < n :: fs[i] == ChainNode(ps, i)
  {
    if n == 0 then [] else ChainNodes(ps, n - 1) + [ChainNode(ps, n - 1)]
  }

  function ChainTree(ps: seq<string>): Fs {
    ChainNodes(ps, |ps| + 1)
  }

  /** Neighbours in the chain fit together. */
  lemma ChainLink(ps: seq<string>, l: Link, here: Node, e: Entry)
    requires l <= |ps| && here == ChainNode(ps, l)
    ensures here.parent == (if l == 0 then None else Some(l - 1))
    ensures e in here.entries ==> l < |ps| && e == Child(l + 1)
  {
  }

  lemma ChainIsWellFormed(ps: seq<string>)
    ensures WellFormed(ChainTree(ps)) && ChainTree(ps)[0].parent.None?
  {
    NeighboursAreWellFormed(ps, ChainTree(ps));
  }

  ghost predicate Chained(ps: seq<string>, fs: Fs) {
    |fs| == |ps| + 1 && forall i | 0 <= i < |fs| :: fs[i] == ChainNode(ps, i)
  }

  lemma NeighboursAreWellFormed(ps: seq<string>, fs: Fs)
    requires Chained(ps, fs)
    ensures WellFormed(fs) && fs[0].parent.None?
  {
    forall l: Link | l < |fs| && fs[l].parent.Some?
      ensures fs[l].parent.value < l && fs[fs[l].parent.value].kind.Folder?
    {
      ParentInChain(ps, fs, l);
    }
    forall l: Link, e | l < |fs| && e in fs[l].entries && e.Child?
      ensures e.link < |fs| && fs[e.link].parent == Some(l)
    {
      ChildInChain(ps, fs, l, e);
    }
    assert fs[0] == ChainNode(ps, 0);
  }

  lemma ParentInChain(ps: seq<string>, fs: Fs, l: Link)
    requires Chained(ps, fs) && l < |fs| && fs[l].parent.Some?
    ensures fs[l].parent.value < l && fs[fs[l].parent.value].kind.Folder?
  {
    ChainLink(ps, l, fs[l], Child(0));
  }

  lemma ChildInChain(ps: seq<string>, fs: Fs, l: Link, e: Entry)
    requires Chained(ps, fs) && l < |fs| && e in fs[l].entries && e.Child?
    ensures e.link < |fs| && fs[e.link].parent == Some(l)
  {
    ChainLink(ps, l, fs[l], e);
    ChainLink(ps, l + 1, fs[l + 1], e);
  }

  /** In the chain each folder has one child, under the next name. */
  lemma ChainDescend(ps: seq<string>, i: nat, name: string)
    requires i <= |ps| && IsClean(name)
    ensures Descend(ChainTree(ps), i, name) ==
            if i < |ps| && ps[i] == name then Ok(i + 1) else Err(ErrFileNotFound)
  {
    var fs := ChainTree(ps);
    assert fs[i] == ChainNode(ps, i);
    if i < |ps| {
      assert fs[i + 1] == ChainNode(ps, i + 1);
      assert fs[i + 1].name == Some(ps[i]) && fs[i].entries == [Child(i + 1)];
      ScanIsFirst(fs, fs[i].entries, name, if ps[i] == name then 0 else 1);
    }
  }

  /** Clean components resolve in the chain exactly when they are its beginning. */
  lemma {:induction false} ChainResolves(ps: seq<string>, i: nat, parts: seq<string>)
    requires i <= |ps| && AllClean(parts) && WellFormed(ChainTree(ps))
    ensures ResolveParts(ChainTree(ps), i, parts).Ok? <==> parts <= ps[i..]
    decreases |parts|
  {
    if parts != [] {
      assert IsClean(parts[0]) by { assert parts[0] in parts; }
      assert AllClean(parts[1..]) by { assert forall p | p in parts[1..] :: p in parts; }
      ChainDescend(ps, i, parts[0]);
      if i < |ps| && ps[i] == parts[0] {
        ChainResolves(ps, i + 1, parts[1..]);
        FirstOfPrefix(parts, ps[i..]);
        assert ps[i..][1..] == ps[i + 1..];
      }
    }
  }

  lemma FirstOfPrefix(a: seq<string>, b: seq<string>)
    requires a != [] && b != [] && a[0] == b[0]
    ensures a <= b <==> a[1..] <= b[1..]
  {
    if a[1..] <= b[1..] {
      assert a == [a[0]] + a[1..] && b == [b[0]] + b[1..];
    }
  }

  /** If every tree agrees, then the chain of the normal form does, and there a component taken
      back for good is missing. */
  lemma AgreementTakesNothingBack(raw: string)
    requires var fs := ChainTree(Reduce([], Segments(raw))); WellFormed(fs) && NormalAgrees(fs, 0, raw)
    ensures TakesNothingBack([], Segments(raw))
  {
    var segments := Segments(raw);
    var final := Reduce([], segments);
    var fs := ChainTree(final);
    SplitNoSlash(TrimPrefix(raw));
    ReduceClean([], segments);
    NormalAgreesMeans(fs, 0, raw);
    ChainResolves(final, 0, final);
    assert final[0..] == final;
    forall k | 0 <= k <= |segments| ensures Reduce([], segments[..k]) <= final {
      BeginningResolves(fs, final, segments, k);
    }
  }

  lemma BeginningResolves(fs: Fs, final: seq<string>, segments: seq<string>, k: nat)
    requires fs == ChainTree(final) && WellFormed(fs) && NoSlash(segments) && k <= |segments|
    requires ResolveParts(fs, 0, segments).Ok?
    ensures Reduce([], segments[..k]) <= final
  {
    var init := segments[..k];
    assert segments == init + segments[k..];
    ResolveAppend(fs, 0, init, segments[k..]);
    assert NoSlash(init) by { assert forall p | p in init :: p in segments; }
    assert [] + init == init;
    ChainIsWellFormed(final);
    ReducePreserves(fs, 0, [], init);
    ReduceClean([], init);
    ChainResolves(final, 0, Reduce([], init));
    assert final[0..] == final;
  }

  /** A path and its normal form agree on every tree, failures included, exactly when no
      component is taken back for good: a condition on the text alone. */
  lemma NormalizeAgreesEverywhere(raw: string)
    ensures (forall fs: Fs, root: Link | root < |fs| && WellFormed(fs) && fs[root].parent.None? :: NormalAgrees(fs, root, raw))
            <==> TakesNothingBack([], Segments(raw))
  {
    var segments := Segments(raw);
    if TakesNothingBack([], segments) {
      SplitNoSlash(TrimPrefix(raw));
      assert [] + segments == segments;
      forall fs: Fs, root: Link | root < |fs| && WellFormed(fs) && fs[root].parent.None?
        ensures NormalAgrees(fs, root, raw)
      {
        ReduceAgrees(fs, root, [], segments);
        NormalAgreesMeans(fs, root, raw);
      }
    } else {
      ChainIsWellFormed(Reduce([], segments));
      if NormalAgrees(ChainTree(Reduce([], segments)), 0, raw) { AgreementTakesNothingBack(raw); }
    }
  }

  lemma UpAndDown()
    ensures Split("a/..") == ["a", ".."] == PathComponents("a/..") && Reduce([], ["a", ".."]) == []
  {
    SplitFirst("a", "..");
    SplitOne("..");
    assert "a" + "/" + ".." == "a/..";
    assert Reduce([], ["a", ".."]) == Reduce(Push([], "a"), [".."]);
  }

  /** The converse fails: a component taken back by ".." need not exist. */
  lemma NormalizeForgetsMissingParts()
    ensures var fs := [Node(Folder, Some("root"), false, None, [])];
            && WellFormed(fs) && ResolvePath(fs, 0, "a/..") == Err(ErrFileNotFound)
            && Normalized("a/..").Err? && ResolvePath(fs, 0, "") == Ok(0)
  {
    UpAndDown();
    assert TrimPrefix("a/..") == "a/..";
    NormalForm("a/..");
  }

  /** That path takes a component back for good. */
  lemma UpAndDownTakesBack()
    ensures !TakesNothingBack([], Segments("a/.."))
  {
    UpAndDown();
    assert TrimPrefix("a/..") == "a/..";
    var segments := Segments("a/..");
    assert segments[..1] == ["a"];
    assert Reduce([], ["a"]) == Reduce(Push([], "a"), []);
    assert !(Reduce([], segments[..1]) <= Reduce([], segments));
  }

  // ----- absolute paths -----

  /** The names from below the root down to a link. */
  function Names(fs: Fs, l: Link): Option<seq<string>>
    requires l < |fs| && WellFormed(fs)
    decreases l
  {
    match fs[l].parent
    case None => Some([])
    case Some(p) =>
      match (Names(fs, p), fs[l].name)
      case (Some(ns), Some(n)) => Some(ns + [n])
      case _ => None
  }

  function RootOf(fs: Fs, l: Link): (r: Link)
    requires l < |fs| && WellFormed(fs)
    ensures r < |fs| && fs[r].parent.None?
    decreases l
  {
    match fs[l].parent case None => l case Some(p) => RootOf(fs, p)
  }

  /** None when a name on the way cannot be decrypted. */
  function AbsPath(fs: Fs, l: Link): Option<string>
    requires l < |fs| && WellFormed(fs)
  {
    match (Names(fs, l), fs[RootOf(fs, l)].name)
    case (Some(ns), Some(rootName)) => Some(if ns == [] then rootName else rootName + "/" + Join(ns))
    case _ => None
  }

  function Backwards(ps: seq<string>): (r: seq<string>)
    ensures |r| == |ps|
  {
    if ps == [] then [] else Backwards(ps[1..]) + [ps[0]]
  }

  lemma {:induction false} BackwardsAt(ps: seq<string>, k: nat)
    requires k < |ps|
    ensures Backwards(ps)[k] == ps[|ps| - 1 - k]
  {
    if k < |ps| - 1 { BackwardsAt(ps[1..], k); }
  }

  /** Reverses in place, from both ends. */
  method Reverse(parts: array<string>)
    modifies parts
    ensures parts[..] == Backwards(old(parts[..]))
  {
    var n := parts.Length;
    var i, j := 0, n - 1;
    while i < j
      invariant 0 <= i <= n && i + j == n - 1
      invariant forall k | 0 <= k < n ::
                  parts[k] == if i <= k <= j then old(parts[k]) else old(parts[n - 1 - k])
      decreases j - i
    {
      parts[i], parts[j] := parts[j], parts[i];
      i, j := i + 1, j - 1;
    }
    MirroredIsBackwards(old(parts[..]), parts[..]);
  }

  lemma MirroredIsBackwards(was: seq<string>, now: seq<string>)
    requires |now| == |was| && forall k | 0 <= k < |now| :: now[k] == was[|was| - 1 - k]
    ensures now == Backwards(was)
  {
    forall k | 0 <= k < |was| ensures |Backwards(was)| == |was| && now[k] == Backwards(was)[k] { BackwardsAt(was, k); }
  }

  /** The names met on the way up. */
  function NamesUp(fs: Fs, l: Link): Option<seq<string>>
    requires l < |fs| && WellFormed(fs)
    decreases l
  {
    match fs[l].parent
    case None => Some([])
    case Some(p) =>
      match (NamesUp(fs, p), fs[l].name)
      case (Some(ns), Some(n)) => Some([n] + ns)
      case _ => None
  }

  lemma {:induction false} NamesUpIsNames(fs: Fs, l: Link)
    requires l < |fs| && WellFormed(fs)
    ensures Names(fs, l) == match NamesUp(fs, l) case None => None case Some(ns) => Some(Backwards(ns))
    decreases l
  {
    if fs[l].parent.Some? {
      NamesUpIsNames(fs, fs[l].parent.value);
      if NamesUp(fs, l).Some? { assert NamesUp(fs, l).value[1..] == NamesUp(fs, fs[l].parent.value).value; }
    }
  }

  function After(found: seq<string>, rest: Option<seq<string>>): Option<seq<string>> {
    match rest case None => None case Some(ns) => Some(found + ns)
  }

  lemma OneUp(fs: Fs, l: Link, found: seq<string>)
    requires l < |fs| && WellFormed(fs) && fs[l].parent.Some? && fs[l].name.Some?
    ensures After(found + [fs[l].name.value], NamesUp(fs, fs[l].parent.value)) == After(found, NamesUp(fs, l))
  {
    var n, rest := fs[l].name.value, NamesUp(fs, fs[l].parent.value);
    if rest.Some? { assert found + [n] + rest.value == found + ([n] + rest.value); }
  }

  /** The loop up the parents. */
  method CollectUp(fs: Fs, l: Link) returns (found: Option<seq<string>>, root: Link)
    requires l < |fs| && WellFormed(fs)
    ensures found == NamesUp(fs, l)
    ensures found.Some? ==> root == RootOf(fs, l)
  {
    var names: seq<string> := [];
    root := l;
    assert NamesUp(fs, l).Some? ==> [] + NamesUp(fs, l).value == NamesUp(fs, l).value;
    while fs[root].parent.Some?
      invariant root < |fs| && RootOf(fs, root) == RootOf(fs, l)
      invariant After(names, NamesUp(fs, root)) == NamesUp(fs, l)
      decreases root
    {
      if fs[root].name.None? { return None, root; }
      OneUp(fs, root, names);
      names := names + [fs[root].name.value];
      root := fs[root].parent.value;
    }
    assert names + [] == names;
    return Some(names), root;
  }

  /** The names from the link up, reversed in place, behind the root's name. */
  method AbsPathLoop(fs: Fs, l: Link) returns (r: Option<string>)
    requires l < |fs| && WellFormed(fs)
    ensures r == AbsPath(fs, l)
  {
    NamesUpIsNames(fs, l);
    var found, root := CollectUp(fs, l);
    if found.None? { return None; }
    var rootName := fs[root].name;
    if rootName.None? { return None; }
    var names := found.value;
    var parts := new string[|names|](i requires 0 <= i < |names| => names[i]);
    assert parts[..] == names;
    Reverse(parts);
    if parts.Length == 0 { return rootName; }
    return Some(rootName.value + "/" + Join(parts[..]));
  }

  // ----- absolute paths and resolution are inverse -----

  /** The folder's listing shows this link, and no other untrashed link of its name. */
  ghost predicate Listed(fs: Fs, l: Link)
    requires l < |fs| && WellFormed(fs) && fs[l].parent.Some?
  {
    var entries := fs[fs[l].parent.value].entries;
    && !fs[l].trashed && fs[l].name.Some? && IsClean(fs[l].name.value)
    && Child(l) in entries && Broken !in entries
    && forall c: Link | Child(c) in entries && c != l && !fs[c].trashed :: fs[c].name != fs[l].name
  }

  ghost predicate ListedToRoot(fs: Fs, l: Link)
    requires l < |fs| && WellFormed(fs)
    decreases l
  {
    fs[l].parent.Some? ==> Listed(fs, l) && ListedToRoot(fs, fs[l].parent.value)
  }

  lemma {:induction false} ScanFindsListed(fs: Fs, entries: seq<Entry>, l: Link)
    requires l < |fs| && fs[l].name.Some? && IsClean(fs[l].name.value) && !fs[l].trashed
    requires Child(l) in entries && Broken !in entries
    requires forall c: Link | Child(c) in entries && c != l && c < |fs| && !fs[c].trashed :: fs[c].name != fs[l].name
    ensures Scan(fs, entries, fs[l].name.value) == Ok(Some(l))
  {
    assert entries[0] in entries && entries[0].Child?;
    if entries[0] != Child(l) {
      assert forall e | e in entries[1..] :: e in entries;
      ScanFindsListed(fs, entries[1..], l);
    }
  }

  lemma {:induction false} NamesResolve(fs: Fs, l: Link)
    requires l < |fs| && WellFormed(fs) && ListedToRoot(fs, l)
    ensures Names(fs, l).Some? && AllClean(Names(fs, l).value)
    ensures ResolveParts(fs, RootOf(fs, l), Names(fs, l).value) == Ok(l)
    decreases l
  {
    if fs[l].parent.Some? {
      var p, n := fs[l].parent.value, fs[l].name.value;
      NamesResolve(fs, p);
      ResolveAppend(fs, RootOf(fs, l), Names(fs, p).value, [n]);
      OneName(fs, p, n);
      ScanFindsListed(fs, fs[p].entries, l);
    }
  }

  lemma ComponentsAfterRoot(ns: seq<string>)
    requires ns != [] && AllClean(ns)
    ensures PathComponents("/" + Join(ns)) == ns
  {
    var s := "/" + Join(ns);
    assert s[1..] == Join(ns);
    assert TrimLeadingSlashes(s) == TrimLeadingSlashes(Join(ns));
    NormalComponents(ns, false);
  }

  /** The path printed for a link, without the name of the root, resolves from the root to the
      link. */
  lemma AbsPathResolves(fs: Fs, l: Link)
    requires l < |fs| && WellFormed(fs) && ListedToRoot(fs, l) && fs[RootOf(fs, l)].name.Some?
    ensures var rootName := fs[RootOf(fs, l)].name.value;
            && AbsPath(fs, l).Some? && rootName <= AbsPath(fs, l).value
            && ResolvePath(fs, RootOf(fs, l), AbsPath(fs, l).value[|rootName|..]) == Ok(l)
  {
    NamesResolve(fs, l);
    var ns, rootName := Names(fs, l).value, fs[RootOf(fs, l)].name.value;
    if ns == [] {
      assert AbsPath(fs, l).value[|rootName|..] == "";
    } else {
      assert AbsPath(fs, l).value[|rootName|..] == "/" + Join(ns);
      ComponentsAfterRoot(ns);
    }
  }

  lemma {:induction false} ResolvedNames(fs: Fs, root: Link, parts: seq<string>)
    requires root < |fs| && WellFormed(fs) && fs[root].parent.None? && AllClean(parts)
    requires ResolveParts(fs, root, parts).Ok?
    ensures var l := ResolveParts(fs, root, parts).value; Names(fs, l) == Some(parts) && RootOf(fs, l) == root
    decreases |parts|
  {
    if parts != [] {
      var init, n := parts[..|parts| - 1], parts[|parts| - 1];
      assert parts == init + [n];
      assert IsClean(n) by { assert n in parts; }
      assert AllClean(init) by { assert forall p | p in init :: p in parts; }
      ResolveAppend(fs, root, init, [n]);
      ResolvedNames(fs, root, init);
      var mid := ResolveParts(fs, root, init).value;
      OneName(fs, mid, n);
      DescendIsChild(fs, mid, n);
    }
  }

  /** And the other way round: a link found from the root by plain components prints them. */
  lemma ResolvedAbsPath(fs: Fs, root: Link, parts: seq<string>)
    requires root < |fs| && WellFormed(fs) && fs[root].parent.None? && fs[root].name.Some?
    requires parts != [] && AllClean(parts) && ResolvePath(fs, root, Join(parts)).Ok?
    ensures AbsPath(fs, ResolvePath(fs, root, Join(parts)).value) == Some(fs[root].name.value + "/" + Join(parts))
  {
    NormalComponents(parts, false);
    ResolvedNames(fs, root, parts);
  }
}
