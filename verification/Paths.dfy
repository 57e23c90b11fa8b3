/** Slash-separated paths: splitting, joining, trimming and lexical normalization. */
module Paths {
  import opened Outcomes
  import opened Text

  /** Go's strings.Split at "/". */
  function Split(s: string): (ps: seq<string>)
    ensures ps != []
    decreases |s|
  {
    match IndexByte(s, '/')
    case None => [s]
    case Some(k) => [s[..k]] + Split(s[k + 1..])
  }

  /** Go's strings.Join with "/". */
  function Join(ps: seq<string>): string {
    if ps == [] then ""
    else if |ps| == 1 then ps[0]
    else ps[0] + "/" + Join(ps[1..])
  }

  predicate NoSlash(ps: seq<string>) {
    forall p | p in ps :: '/' !in p
  }

  lemma SplitOne(p: string)
    requires '/' !in p
    ensures Split(p) == [p]
  {
    if IndexByte(p, '/').Some? { IndexByteIsFirst(p, '/'); }
  }

  lemma SplitFirst(p: string, rest: string)
    requires '/' !in p
    ensures Split(p + "/" + rest) == [p] + Split(rest)
  {
    var s := p + "/" + rest;
    assert s[..|p|] == p && s[|p| + 1..] == rest;
    FirstIndex(s, '/', |p|);
  }

  lemma {:induction false} SplitNoSlash(s: string)
    ensures NoSlash(Split(s))
    decreases |s|
  {
    match IndexByte(s, '/')
    case None =>
      if '/' in s { NoneMeansAbsent(s, '/'); }
    case Some(k) =>
      IndexByteIsFirst(s, '/');
      SplitNoSlash(s[k + 1..]);
  }

  lemma {:induction false} NoneMeansAbsent(s: string, c: char)
    requires IndexByte(s, c).None?
    ensures c !in s
  {
    if s != "" { NoneMeansAbsent(s[1..], c); }
  }

  lemma {:induction false} SplitJoin(ps: seq<string>)
    requires ps != [] && NoSlash(ps)
    ensures Split(Join(ps)) == ps
  {
    if |ps| == 1 {
      SplitOne(ps[0]);
    } else {
      SplitJoin(ps[1..]);
      SplitFirst(ps[0], Join(ps[1..]));
    }
  }

  lemma {:induction false} JoinSplit(s: string)
    ensures Join(Split(s)) == s
    decreases |s|
  {
    match IndexByte(s, '/')
    case None =>
    case Some(k) =>
      IndexByteIsFirst(s, '/');
      JoinSplit(s[k + 1..]);
      assert Split(s)[1..] == Split(s[k + 1..]);
      assert s == s[..k] + "/" + s[k + 1..];
  }

  lemma {:induction false} JoinAppend(ps: seq<string>, p: string)
    requires ps != []
    ensures Join(ps + [p]) == Join(ps) + "/" + p
  {
    if |ps| > 1 {
      JoinAppend(ps[1..], p);
      assert (ps + [p])[1..] == ps[1..] + [p];
    } else {
      assert (ps + [p])[1..] == [p];
    }
  }

  lemma SplitTrailing(s: string)
    ensures Split(s + "/") == Split(s) + [""]
  {
    var ps := Split(s);
    SplitNoSlash(s);
    JoinSplit(s);
    JoinAppend(ps, "");
    assert Join(ps) + "/" + "" == s + "/";
    assert NoSlash(ps + [""]);
    SplitJoin(ps + [""]);
  }

  lemma SplitLeading(s: string)
    ensures Split("/" + s) == [""] + Split(s)
  {
    SplitFirst("", s);
    assert "" + "/" + s == "/" + s;
  }

  // ----- components -----

  function TrimLeadingSlashes(s: string): string {
    if s != "" && s[0] == '/' then TrimLeadingSlashes(s[1..]) else s
  }

  function TrimTrailingSlashes(s: string): string {
    if s != "" && s[|s| - 1] == '/' then TrimTrailingSlashes(s[..|s| - 1]) else s
  }

  /** The components of a path without leading and trailing slashes. */
  function PathComponents(path: string): seq<string> {
    var p := TrimTrailingSlashes(TrimLeadingSlashes(path));
    if p == "" then [] else Split(p)
  }

  /** The components that are not empty. */
  function NonEmpty(ps: seq<string>): seq<string> {
    if ps == [] then []
    else if ps[0] == "" then NonEmpty(ps[1..])
    else [ps[0]] + NonEmpty(ps[1..])
  }

  lemma NonEmptyCons(p: string, rest: seq<string>)
    ensures NonEmpty([p] + rest) == if p == "" then NonEmpty(rest) else [p] + NonEmpty(rest)
  {
    assert ([p] + rest)[1..] == rest;
  }

  lemma Regroup(a: seq<string>, b: seq<string>, c: seq<string>)
    ensures a + b + c == a + (b + c)
  {
  }

  lemma OneMoreInFront(p: string, rest: seq<string>, qs: seq<string>)
    requires NonEmpty(rest + qs) == NonEmpty(rest) + NonEmpty(qs)
    ensures NonEmpty([p] + rest + qs) == NonEmpty([p] + rest) + NonEmpty(qs)
  {
    Regroup([p], rest, qs);
    NonEmptyCons(p, rest + qs);
    NonEmptyCons(p, rest);
    Regroup([p], NonEmpty(rest), NonEmpty(qs));
  }

  lemma {:induction false} NonEmptyAppend(ps: seq<string>, qs: seq<string>)
    ensures NonEmpty(ps + qs) == NonEmpty(ps) + NonEmpty(qs)
  {
    if ps == [] {
      assert ps + qs == qs;
    } else {
      var p, rest := ps[0], ps[1..];
      assert ps == [p] + rest;
      NonEmptyAppend(rest, qs);
      OneMoreInFront(p, rest, qs);
    }
  }

  lemma {:induction false} TrimLeadingKeeps(s: string)
    ensures NonEmpty(Split(TrimLeadingSlashes(s))) == NonEmpty(Split(s))
  {
    if s != "" && s[0] == '/' {
      TrimLeadingKeeps(s[1..]);
      SplitLeading(s[1..]);
      assert s == "/" + s[1..];
      NonEmptyAppend([""], Split(s[1..]));
    }
  }

  lemma {:induction false} TrimTrailingKeeps(s: string)
    ensures NonEmpty(Split(TrimTrailingSlashes(s))) == NonEmpty(Split(s))
  {
    if s != "" && s[|s| - 1] == '/' {
      TrimTrailingKeeps(s[..|s| - 1]);
      SplitTrailing(s[..|s| - 1]);
      assert s == s[..|s| - 1] + "/";
      NonEmptyAppend(Split(s[..|s| - 1]), [""]);
    }
  }

  /** Trimming slashes loses no component. */
  lemma ComponentsNonEmpty(path: string)
    ensures NonEmpty(PathComponents(path)) == NonEmpty(Split(path))
  {
    TrimLeadingKeeps(path);
    TrimTrailingKeeps(TrimLeadingSlashes(path));
    SplitOne("");
  }

  lemma TrimmedEnds(s: string)
    ensures var t := TrimTrailingSlashes(TrimLeadingSlashes(s));
            t != "" ==> t[0] != '/' && t[|t| - 1] != '/'
  {
    LeadingTrimmed(s);
    TrailingTrimmed(TrimLeadingSlashes(s));
  }

  lemma {:induction false} LeadingTrimmed(s: string)
    ensures var t := TrimLeadingSlashes(s); t != "" ==> t[0] != '/'
  {
    if s != "" && s[0] == '/' { LeadingTrimmed(s[1..]); }
  }

  lemma {:induction false} TrailingTrimmed(s: string)
    ensures var t := TrimTrailingSlashes(s); t != "" ==> t[0] == s[0] && t[|t| - 1] != '/'
    ensures TrimTrailingSlashes(s) <= s
  {
    if s != "" && s[|s| - 1] == '/' { TrailingTrimmed(s[..|s| - 1]); }
  }

  lemma {:induction false} SplitEnds(s: string)
    requires s != "" && s[|s| - 1] != '/'
    ensures s[0] != '/' ==> Split(s)[0] != ""
    ensures Split(s)[|Split(s)| - 1] != ""
    decreases |s|
  {
    if IndexByte(s, '/').Some? {
      IndexByteIsFirst(s, '/');
      var rest := s[IndexByte(s, '/').value + 1..];
      assert rest != "" && rest[|rest| - 1] == s[|s| - 1];
      SplitEnds(rest);
    }
  }

  /** No component at either end is empty: a trailing slash does not hide the last name. */
  lemma ComponentEnds(path: string)
    ensures var ps := PathComponents(path); ps != [] ==> ps[0] != "" && ps[|ps| - 1] != ""
  {
    TrimmedEnds(path);
    var t := TrimTrailingSlashes(TrimLeadingSlashes(path));
    if t != "" { SplitEnds(t); }
  }

  // ----- normalization -----

  predicate IsClean(p: string) {
    p != "" && p != "." && p != ".." && '/' !in p
  }

  predicate AllClean(ps: seq<string>) {
    forall p | p in ps :: IsClean(p)
  }

  /** One component: empty ones and "." are dropped, ".." takes the last one back. */
  function Push(stack: seq<string>, p: string): seq<string> {
    if p == "" || p == "." then stack
    else if p == ".." then (if stack != [] then stack[..|stack| - 1] else stack)
    else stack + [p]
  }

  function Reduce(stack: seq<string>, ps: seq<string>): seq<string>
    decreases |ps|
  {
    if ps == [] then stack else Reduce(Push(stack, ps[0]), ps[1..])
  }

  lemma {:induction false} ReduceClean(stack: seq<string>, ps: seq<string>)
    requires AllClean(stack) && NoSlash(ps)
    ensures AllClean(Reduce(stack, ps))
    decreases |ps|
  {
    if ps != [] { ReduceClean(Push(stack, ps[0]), ps[1..]); }
  }

  lemma {:induction false} ReduceOfClean(stack: seq<string>, ps: seq<string>)
    requires AllClean(ps)
    ensures Reduce(stack, ps) == stack + ps
    decreases |ps|
  {
    if ps == [] {
      assert stack + ps == stack;
    } else {
      assert IsClean(ps[0]) by { assert ps[0] in ps; }
      ReduceOfClean(stack + [ps[0]], ps[1..]);
      assert stack + [ps[0]] + ps[1..] == stack + ps;
    }
  }

  lemma {:induction false} ReduceAppend(stack: seq<string>, ps: seq<string>, p: string)
    ensures Reduce(stack, ps + [p]) == Push(Reduce(stack, ps), p)
    decreases |ps|
  {
    if ps == [] {
      assert ps + [p] == [p];
    } else {
      ReduceAppend(Push(stack, ps[0]), ps[1..], p);
      assert (ps + [p])[1..] == ps[1..] + [p];
    }
  }

  datatype PathError = ErrInvalidPath

  function TrimPrefix(s: string): string {
    if s != "" && s[0] == '/' then s[1..] else s
  }

  predicate EndsWithSlash(s: string) {
    s != "" && s[|s| - 1] == '/'
  }

  function Normalized(raw: string): Result<string, PathError> {
    var s := TrimPrefix(raw);
    var result := Join(Reduce([], Split(s))) + if EndsWithSlash(s) then "/" else "";
    if result == "" || result == "/" then Err(ErrInvalidPath) else Ok(result)
  }

  /** The loop of the source over the segments. */
  method NormalizePath(raw: string) returns (r: Result<string, PathError>)
    ensures r == Normalized(raw)
  {
    var s := if raw != "" && raw[0] == '/' then raw[1..] else raw;
    var trailingSlash := if EndsWithSlash(s) then "/" else "";
    var segments := Split(s);
    var parts: seq<string> := [];
    for i := 0 to |segments|
      invariant Reduce(parts, segments[i..]) == Reduce([], segments)
    {
      var p := segments[i];
      assert segments[i..][1..] == segments[i + 1..];
      if p == "" || p == "." { continue; }
      if p == ".." {
        if |parts| > 0 { parts := parts[..|parts| - 1]; }
      } else {
        parts := parts + [p];
      }
    }
    var result := Join(parts) + trailingSlash;
    if result == "" || result == "/" { return Err(ErrInvalidPath); }
    return Ok(result);
  }

  lemma {:induction false} JoinOfClean(ps: seq<string>)
    requires ps != [] && AllClean(ps)
    ensures Join(ps) != "" && Join(ps)[0] != '/' && Join(ps)[|Join(ps)| - 1] != '/'
  {
    assert IsClean(ps[0]) by { assert ps[0] in ps; }
    assert ps[0][0] in ps[0] && ps[0][|ps[0]| - 1] in ps[0];
    if |ps| > 1 { JoinOfClean(ps[1..]); }
  }

  /** Clean segments, with the trailing slash if there is one. */
  function Canonical(ps: seq<string>, trailing: bool): string {
    if trailing then Join(ps) + "/" else Join(ps)
  }

  lemma CanonicalEnds(ps: seq<string>, trailing: bool)
    requires ps != [] && AllClean(ps)
    ensures var s := Canonical(ps, trailing);
            s != "" && s != "/" && TrimPrefix(s) == s && EndsWithSlash(s) == trailing
  {
    JoinOfClean(ps);
    assert Canonical(ps, trailing)[0] == Join(ps)[0];
  }

  lemma CanonicalSegments(ps: seq<string>, trailing: bool)
    requires ps != [] && AllClean(ps)
    ensures Reduce([], Split(Canonical(ps, trailing))) == ps
  {
    SplitJoin(ps);
    ReduceOfClean([], ps);
    if trailing {
      SplitTrailing(Join(ps));
      ReduceAppend([], ps, "");
    }
  }

  /** A path made of clean segments, with or without a trailing slash, is its own normal form. */
  lemma CleanIsNormal(ps: seq<string>, trailing: bool)
    requires ps != [] && AllClean(ps)
    ensures Normalized(Canonical(ps, trailing)) == Ok(Canonical(ps, trailing))
  {
    CanonicalEnds(ps, trailing);
    CanonicalSegments(ps, trailing);
    assert Join(ps) + "" == Join(ps);
  }

  /** What normalization accepts, and what it answers: the clean segments that are left, at least
      one, with the trailing slash kept. */
  lemma NormalForm(raw: string)
    ensures var ps := Reduce([], Split(TrimPrefix(raw)));
            && AllClean(ps)
            && Normalized(raw) == if ps == [] then Err(ErrInvalidPath)
                                  else Ok(Canonical(ps, EndsWithSlash(TrimPrefix(raw))))
  {
    var s := TrimPrefix(raw);
    var ps := Reduce([], Split(s));
    SplitNoSlash(s);
    ReduceClean([], Split(s));
    assert Join(ps) + "" == Join(ps);
    if ps != [] { CanonicalEnds(ps, EndsWithSlash(s)); }
  }

  /** Normalizing twice is normalizing once. */
  lemma NormalizeIdempotent(raw: string)
    requires Normalized(raw).Ok?
    ensures Normalized(Normalized(raw).value) == Normalized(raw)
  {
    NormalForm(raw);
    CleanIsNormal(Reduce([], Split(TrimPrefix(raw))), EndsWithSlash(TrimPrefix(raw)));
  }

  /** The components of a normal form are exactly its clean segments. */
  lemma NormalComponents(ps: seq<string>, trailing: bool)
    requires ps != [] && AllClean(ps)
    ensures PathComponents(Canonical(ps, trailing)) == ps
  {
    var s := Canonical(ps, trailing);
    JoinOfClean(ps);
    assert s[0] == Join(ps)[0];
    assert TrimLeadingSlashes(s) == s;
    if trailing {
      assert s[..|s| - 1] == Join(ps);
      assert TrimTrailingSlashes(s) == TrimTrailingSlashes(Join(ps));
    }
    SplitJoin(ps);
  }
}
