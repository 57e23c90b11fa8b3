/** The selector language of the configuration: its parser and its printer.

    The parser's position-advancing loop is proved equal to a recursive parser, and parsing
    and printing are proved inverse on exactly the selectors and strings for which they are. */
module Selectors {
  import opened Outcomes
  import opened Text

  /** One component of a selector; the index key and value are empty when there is no index. */
  datatype Segment = Segment(name: string, indexKey: string, indexVal: string)

  datatype ParseError =
    | EmptyInput
    | EmptyIdentifier(pos: nat)
    | UnmatchedBracket(name: string)
    | MissingEquals(text: string)
    | EmptyValue(text: string)
    | UnexpectedCharacter(c: char, pos: nat)

  predicate IsIdentStart(c: char) {
    'a' <= c <= 'z' || 'A' <= c <= 'Z' || c == '_'
  }

  predicate IsIdentCont(c: char) {
    IsIdentStart(c) || '0' <= c <= '9' || c == '-'
  }

  // ----- printing -----

  function IndexText(key: string, val: string): string {
    key + "=" + val + "]"
  }

  function SegmentString(seg: Segment): string {
    if seg.indexKey != "" then seg.name + ("[" + IndexText(seg.indexKey, seg.indexVal))
    else seg.name
  }

  function Print(segs: seq<Segment>): string {
    if segs == [] then ""
    else if |segs| == 1 then SegmentString(segs[0])
    else SegmentString(segs[0]) + "." + Print(segs[1..])
  }

  lemma {:induction false} PrintSnoc(segs: seq<Segment>, seg: Segment)
    ensures Print(segs + [seg]) == if segs == [] then SegmentString(seg)
                                   else Print(segs) + "." + SegmentString(seg)
  {
    if segs != [] {
      assert (segs + [seg])[1..] == segs[1..] + [seg];
      PrintSnoc(segs[1..], seg);
    } else {
      assert segs + [seg] == [seg];
    }
  }

  lemma PrintTo(segs: seq<Segment>, i: nat)
    requires i < |segs|
    ensures Print(segs[..i + 1]) == (if i > 0 then Print(segs[..i]) + "." else Print(segs[..i])) + SegmentString(segs[i])
  {
    PrintSnoc(segs[..i], segs[i]);
    assert segs[..i + 1] == segs[..i] + [segs[i]];
    if i == 0 { assert "" + SegmentString(segs[0]) == SegmentString(segs[0]); }
  }

  method PrintSelector(segs: seq<Segment>) returns (b: string)
    ensures b == Print(segs)
  {
    b := "";
    for i := 0 to |segs|
      invariant b == Print(segs[..i])
    {
      PrintTo(segs, i);
      if i > 0 { b := b + "."; }
      b := WriteSegment(b, segs[i]);
    }
    assert segs[..|segs|] == segs;
  }

  method WriteSegment(builder: string, seg: Segment) returns (b: string)
    ensures b == builder + SegmentString(seg)
  {
    b := builder + seg.name;
    if seg.indexKey != "" {
      b := b + "[" + seg.indexKey + "=" + seg.indexVal + "]";
    }
  }

  // ----- parsing -----

  /** The end of the run of identifier characters from pos on. */
  function IdentEnd(input: string, pos: nat): (end: nat)
    requires pos <= |input|
    ensures pos <= end <= |input|
    decreases |input| - pos
  {
    if pos < |input| && IsIdentCont(input[pos]) then IdentEnd(input, pos + 1) else pos
  }

  lemma {:induction false} IdentEndRun(input: string, pos: nat)
    requires pos <= |input|
    ensures forall k | pos <= k < IdentEnd(input, pos) :: IsIdentCont(input[k])
    decreases |input| - pos
  {
    if pos < |input| && IsIdentCont(input[pos]) { IdentEndRun(input, pos + 1); }
  }

  /** The index whose text follows an opening bracket, and how much of that text it takes. */
  function ParseIndex(name: string, text: string): (r: Result<(Segment, nat), ParseError>)
    ensures r.Ok? ==> r.value.1 <= |text|
  {
    match IndexByte(text, ']')
    case None => Err(UnmatchedBracket(name))
    case Some(closeIdx) =>
      var inner := text[..closeIdx];
      match IndexByte(inner, '=')
      case None => Err(MissingEquals(name + "[" + text[..closeIdx + 1]))
      case Some(eqIdx) =>
        if inner[eqIdx + 1..] == "" then Err(EmptyValue(name + "[" + text[..closeIdx + 1]))
        else Ok((Segment(name, inner[..eqIdx], inner[eqIdx + 1..]), closeIdx + 1))
  }

  /** The segment at the start of text, which stands at position pos of the whole input, and
      how much of text it takes. */
  function ParseSegment(text: string, pos: nat): (r: Result<(Segment, nat), ParseError>)
    ensures r.Ok? ==> 0 < r.value.1 <= |text|
  {
    if text == "" || !IsIdentStart(text[0]) then Err(EmptyIdentifier(pos))
    else
      var end := IdentEnd(text, 1);
      var name := text[..end];
      if end < |text| && text[end] == '[' then
        match ParseIndex(name, text[end + 1..])
        case Err(e) => Err(e)
        case Ok((seg, used)) => Ok((seg, end + 1 + used))
      else Ok((Segment(name, "", ""), end))
  }

  /** A reader of one segment; the second argument is the position, for error messages. */
  type Reader = (string, nat) -> Result<(Segment, nat), ParseError>

  ghost predicate Advances(read: Reader) {
    forall text, pos: nat :: read(text, pos).Ok? ==> 0 < read(text, pos).value.1 <= |text|
  }

  /** Segments separated by dots. */
  function ReadAll(read: Reader, text: string, pos: nat): Result<seq<Segment>, ParseError>
    requires Advances(read)
    decreases |text|
  {
    match read(text, pos)
    case Err(e) => Err(e)
    case Ok((seg, used)) =>
      if used == |text| then Ok([seg])
      else if text[used] == '.' then After([seg], ReadAll(read, text[used + 1..], pos + used + 1))
      else Err(UnexpectedCharacter(text[used], pos + used))
  }

  function ParseFrom(text: string, pos: nat): Result<seq<Segment>, ParseError> {
    ReadAll(ParseSegment, text, pos)
  }

  function After(segs: seq<Segment>, rest: Result<seq<Segment>, ParseError>): Result<seq<Segment>, ParseError> {
    match rest
    case Err(e) => Err(e)
    case Ok(more) => Ok(segs + more)
  }

  function Parse(input: string): Result<seq<Segment>, ParseError> {
    if input == "" then Err(EmptyInput) else ParseFrom(input, 0)
  }

  method ParseSelector(input: string) returns (r: Result<seq<Segment>, ParseError>)
    ensures r == Parse(input)
  {
    if input == "" { return Err(EmptyInput); }
    var segments: seq<Segment> := [];
    var pos := 0;
    ghost var goal := Parse(input);
    assert input[0..] == input;
    AfterNothing(ParseFrom(input, 0));
    while true
      invariant pos <= |input|
      invariant goal == After(segments, ParseFrom(input[pos..], pos))
      decreases |input| - pos
    {
      var done;
      segments, pos, done, r := ParseNext(input, pos, segments);
      if done { return; }
    }
    assert false;
  }

  /** The body of the loop: one segment, and the separator behind it. */
  method ParseNext(input: string, start: nat, before: seq<Segment>)
    returns (segments: seq<Segment>, pos: nat, done: bool, r: Result<seq<Segment>, ParseError>)
    requires start <= |input|
    ensures done ==> r == After(before, ParseFrom(input[start..], start))
    ensures !done ==> start < pos <= |input|
    ensures !done ==> After(segments, ParseFrom(input[pos..], pos)) == After(before, ParseFrom(input[start..], start))
  {
    segments, done := before, true;
    var seg, failure;
    seg, pos, failure := NextSegment(input, start);
    if failure.Some? { return segments, pos, done, Err(failure.value); }
    Continue(ParseSegment, input, start, before, seg, pos);
    segments := before + [seg];
    if pos >= |input| { return segments, pos, done, Ok(segments); }
    if input[pos] != '.' { return segments, pos, done, Err(UnexpectedCharacter(input[pos], pos)); }
    pos := pos + 1;
    return segments, pos, false, Ok(segments);
  }

  /** What reading one more segment leaves to do. */
  lemma Continue(read: Reader, input: string, start: nat, segments: seq<Segment>, seg: Segment, pos: nat)
    requires Advances(read) && start <= pos <= |input|
    requires read(input[start..], start) == Ok((seg, pos - start))
    ensures After(segments, ReadAll(read, input[start..], start)) ==
            if pos == |input| then Ok(segments + [seg])
            else if input[pos] == '.' then After(segments + [seg], ReadAll(read, input[pos + 1..], pos + 1))
            else Err(UnexpectedCharacter(input[pos], pos))
  {
    var text := input[start..];
    if pos < |input| {
      assert text[pos - start] == input[pos];
      assert text[pos - start + 1..] == input[pos + 1..];
      Reassociate(segments, seg, ReadAll(read, input[pos + 1..], pos + 1));
    }
  }

  /** The part of the loop body that reads one segment. */
  method NextSegment(input: string, start: nat)
    returns (seg: Segment, pos: nat, failure: Option<ParseError>)
    requires start <= |input|
    ensures failure.Some? ==> ParseSegment(input[start..], start) == Err(failure.value)
    ensures failure.None? ==> start < pos <= |input| && ParseSegment(input[start..], start) == Ok((seg, pos - start))
  {
    ghost var text := input[start..];
    seg := Segment("", "", "");
    if start >= |input| || !IsIdentStart(input[start]) { return seg, start, Some(EmptyIdentifier(start)); }
    pos := start + 1;
    while pos < |input| && IsIdentCont(input[pos])
      invariant start < pos <= |input|
      invariant IdentEnd(text, 1) == IdentEnd(text, pos - start)
    {
      pos := pos + 1;
    }
    var name := input[start..pos];
    assert name == text[..pos - start];
    seg := Segment(name, "", "");
    if pos < |input| && input[pos] == '[' {
      assert input[pos + 1..] == text[pos - start + 1..];
      seg, pos, failure := NextIndex(input, pos, name);
    } else {
      failure := None;
    }
  }

  /** The part in brackets. */
  method NextIndex(input: string, bracketStart: nat, name: string)
    returns (seg: Segment, pos: nat, failure: Option<ParseError>)
    requires bracketStart < |input| && input[bracketStart] == '['
    ensures failure.Some? ==> ParseIndex(name, input[bracketStart + 1..]) == Err(failure.value)
    ensures failure.None? ==>
              && bracketStart < pos <= |input|
              && ParseIndex(name, input[bracketStart + 1..]) == Ok((seg, pos - bracketStart - 1))
  {
    seg := Segment(name, "", "");
    pos := bracketStart + 1;
    var closeIdx := IndexByte(input[pos..], ']');
    if closeIdx.None? { return seg, pos, Some(UnmatchedBracket(name)); }
    var inner := input[pos..pos + closeIdx.value];
    assert inner == input[pos..][..closeIdx.value];
    ghost var shown := "[" + input[pos..][..closeIdx.value + 1];
    assert input[bracketStart..pos + closeIdx.value + 1] == shown;
    pos := pos + closeIdx.value + 1;
    assert input[bracketStart..pos] == shown;
    assert name + input[bracketStart..pos] == name + "[" + shown[1..];
    var eqIdx := IndexByte(inner, '=');
    if eqIdx.None? { return seg, pos, Some(MissingEquals(name + input[bracketStart..pos])); }
    var key, val := inner[..eqIdx.value], inner[eqIdx.value + 1..];
    if val == "" { return seg, pos, Some(EmptyValue(name + input[bracketStart..pos])); }
    return Segment(name, key, val), pos, None;
  }

  lemma AfterNothing(rest: Result<seq<Segment>, ParseError>)
    ensures After([], rest) == rest
  {
    if rest.Ok? { assert [] + rest.value == rest.value; }
  }

  lemma Reassociate(segs: seq<Segment>, seg: Segment, rest: Result<seq<Segment>, ParseError>)
    ensures After(segs, After([seg], rest)) == After(segs + [seg], rest)
  {
    if rest.Ok? { assert segs + ([seg] + rest.value) == (segs + [seg]) + rest.value; }
  }

  // ----- the two directions -----

  predicate IsIdentifier(s: string) {
    s != "" && IsIdentStart(s[0]) && forall k | 0 < k < |s| :: IsIdentCont(s[k])
  }

  /** What the parser can put in a segment's index. */
  predicate IndexShape(seg: Segment) {
    seg.indexVal != "" && ']' !in seg.indexVal && '=' !in seg.indexKey && ']' !in seg.indexKey
  }

  /** A segment that printing and parsing keep: an identifier, with no index or with an index
      whose key is not empty. */
  predicate WellFormedSegment(seg: Segment) {
    && IsIdentifier(seg.name)
    && if seg.indexKey == "" then seg.indexVal == "" else IndexShape(seg)
  }

  predicate WellFormed(segs: seq<Segment>) {
    segs != [] && forall k | 0 <= k < |segs| :: WellFormedSegment(segs[k])
  }

  /** The printer drops an index whose key is empty; true when it has none to drop. */
  predicate KeepsIndexes(segs: seq<Segment>) {
    forall k | 0 <= k < |segs| :: segs[k].indexVal != "" ==> segs[k].indexKey != ""
  }

  lemma {:induction false} IdentEndAt(input: string, pos: nat, end: nat)
    requires pos <= end <= |input|
    requires forall k | pos <= k < end :: IsIdentCont(input[k])
    requires end < |input| ==> !IsIdentCont(input[end])
    ensures IdentEnd(input, pos) == end
    decreases end - pos
  {
    if pos < end { IdentEndAt(input, pos + 1, end); }
  }

  lemma ParsePrintedIndex(name: string, key: string, val: string, rest: string)
    requires val != "" && ']' !in val && '=' !in key && ']' !in key
    ensures ParseIndex(name, IndexText(key, val) + rest) == Ok((Segment(name, key, val), |IndexText(key, val)|))
  {
    var inner := key + "=" + val;
    var text := IndexText(key, val) + rest;
    assert text == inner + ("]" + rest);
    assert text[..|inner|] == inner;
    FirstIndex(text, ']', |inner|);
    assert inner[..|key|] == key;
    FirstIndex(inner, '=', |key|);
    assert inner[|key| + 1..] == val;
  }

  lemma ParseName(name: string, index: string)
    requires IsIdentifier(name) && (index != "" ==> !IsIdentCont(index[0]))
    ensures IdentEnd(name + index, 1) == |name| && (name + index)[..|name|] == name
    ensures IsIdentStart((name + index)[0])
    ensures index != "" ==> (name + index)[|name|] == index[0] && (name + index)[|name| + 1..] == index[1..]
  {
    IdentEndAt(name + index, 1, |name|);
  }

  /** A segment by its name and what follows the name. */
  lemma ParseAfterName(name: string, tail: string, pos: nat)
    requires IsIdentifier(name) && (tail == "" || !IsIdentCont(tail[0]))
    ensures ParseSegment(name + tail, pos) ==
            if tail != "" && tail[0] == '[' then
              (match ParseIndex(name, tail[1..])
               case Err(e) => Err(e)
               case Ok((seg, used)) => Ok((seg, |name| + 1 + used)))
            else Ok((Segment(name, "", ""), |name|))
  {
    ParseName(name, tail);
    var text := name + tail;
    assert text[..|name|] == name && (tail != "" ==> text[|name|] == tail[0] && text[|name| + 1..] == tail[1..]);
  }

  lemma PrintedIndex(seg: Segment, index: string, rest: string)
    requires seg.indexKey != "" && index == IndexText(seg.indexKey, seg.indexVal)
    ensures SegmentString(seg) + rest == seg.name + ("[" + (index + rest))
    ensures |SegmentString(seg)| == |seg.name| + 1 + |index|
    ensures ("[" + (index + rest))[0] == '[' && ("[" + (index + rest))[1..] == index + rest
  {
  }

  /** The parser reads back one printed segment, whatever follows it. */
  lemma ParsePrintedSegment(seg: Segment, rest: string, pos: nat)
    requires WellFormedSegment(seg)
    requires rest == "" || rest[0] == '.'
    ensures ParseSegment(SegmentString(seg) + rest, pos) == Ok((seg, |SegmentString(seg)|))
  {
    if seg.indexKey == "" {
      ParseAfterName(seg.name, rest, pos);
    } else {
      var index := IndexText(seg.indexKey, seg.indexVal);
      PrintedIndex(seg, index, rest);
      ParseAfterName(seg.name, "[" + (index + rest), pos);
      ParsePrintedIndex(seg.name, seg.indexKey, seg.indexVal, rest);
    }
  }

  ghost predicate ReadsPrinted(read: Reader) {
    forall seg, rest, pos: nat {:trigger read(SegmentString(seg) + rest, pos)} ::
      WellFormedSegment(seg) && (rest == "" || rest[0] == '.') ==>
        read(SegmentString(seg) + rest, pos) == Ok((seg, |SegmentString(seg)|))
  }

  lemma ReadMore(read: Reader, seg: Segment, tail: string, pos: nat)
    requires Advances(read) && ReadsPrinted(read) && WellFormedSegment(seg)
    ensures ReadAll(read, SegmentString(seg) + "." + tail, pos) ==
            After([seg], ReadAll(read, tail, pos + |SegmentString(seg)| + 1))
  {
    var first := SegmentString(seg);
    var text := first + ("." + tail);
    assert ("." + tail)[0] == '.';
    assert read(text, pos) == Ok((seg, |first|));
    assert first + "." + tail == text;
    assert text[|first|] == '.' && text[|first| + 1..] == tail;
  }

  lemma ReadLast(read: Reader, seg: Segment, pos: nat)
    requires Advances(read) && ReadsPrinted(read) && WellFormedSegment(seg)
    ensures ReadAll(read, SegmentString(seg), pos) == Ok([seg])
  {
    assert SegmentString(seg) + "" == SegmentString(seg);
  }

  /** Induction over printing: a property of a text, its position and its segments holds of every
      printed selector when it holds of one segment and survives putting one in front. */
  lemma {:induction false} PrintInduction(holds: (string, nat, seq<Segment>) -> bool, ok: Segment -> bool,
                                          segs: seq<Segment>, pos: nat)
    requires segs != [] && forall k | 0 <= k < |segs| :: ok(segs[k])
    requires forall seg, at: nat {:trigger holds(SegmentString(seg), at, [seg])} ::
               ok(seg) ==> holds(SegmentString(seg), at, [seg])
    requires forall seg, tail, at: nat, more {:trigger holds(SegmentString(seg) + "." + tail, at, [seg] + more)} ::
               ok(seg) && holds(tail, at + |SegmentString(seg)| + 1, more) ==>
                 holds(SegmentString(seg) + "." + tail, at, [seg] + more)
    ensures holds(Print(segs), pos, segs)
  {
    var seg, more := segs[0], segs[1..];
    assert segs == [seg] + more;
    if more == [] {
      assert [seg] + [] == [seg];
      assert holds(SegmentString(seg), pos, [seg]);
    } else {
      PrintInduction(holds, ok, more, pos + |SegmentString(seg)| + 1);
      assert holds(SegmentString(seg) + "." + Print(more), pos, [seg] + more);
    }
  }

  /** Reading the text at a position gives the segments. */
  predicate ReadsTo(text: string, pos: nat, segs: seq<Segment>) {
    ParseFrom(text, pos) == Ok(segs)
  }

  lemma SegmentsArePrinted()
    ensures ReadsPrinted(ParseSegment)
  {
    forall seg, rest, at: nat | WellFormedSegment(seg) && (rest == "" || rest[0] == '.')
      ensures ParseSegment(SegmentString(seg) + rest, at) == Ok((seg, |SegmentString(seg)|))
    {
      ParsePrintedSegment(seg, rest, at);
    }
  }

  lemma ReadsOne(seg: Segment, pos: nat)
    requires WellFormedSegment(seg)
    ensures ReadsTo(SegmentString(seg), pos, [seg])
  {
    SegmentsArePrinted();
    ReadLast(ParseSegment, seg, pos);
  }

  lemma ReadsMore(seg: Segment, tail: string, pos: nat, more: seq<Segment>)
    requires WellFormedSegment(seg) && ReadsTo(tail, pos + |SegmentString(seg)| + 1, more)
    ensures ReadsTo(SegmentString(seg) + "." + tail, pos, [seg] + more)
  {
    SegmentsArePrinted();
    ReadMore(ParseSegment, seg, tail, pos);
  }

  /** Reading undoes printing, at any position. */
  lemma ParsePrinted(segs: seq<Segment>, pos: nat)
    requires WellFormed(segs)
    ensures ParseFrom(Print(segs), pos) == Ok(segs)
  {
    forall seg, at: nat {:trigger ReadsTo(SegmentString(seg), at, [seg])} | WellFormedSegment(seg)
      ensures ReadsTo(SegmentString(seg), at, [seg])
    {
      ReadsOne(seg, at);
    }
    forall seg, tail, at: nat, more {:trigger ReadsTo(SegmentString(seg) + "." + tail, at, [seg] + more)}
      | WellFormedSegment(seg) && ReadsTo(tail, at + |SegmentString(seg)| + 1, more)
      ensures ReadsTo(SegmentString(seg) + "." + tail, at, [seg] + more)
    {
      ReadsMore(seg, tail, at, more);
    }
    PrintInduction(ReadsTo, WellFormedSegment, segs, pos);
  }

  lemma ParsedIndex(name: string, text: string)
    requires ParseIndex(name, text).Ok?
    ensures var (seg, used) := ParseIndex(name, text).value;
            seg.name == name && IndexShape(seg) && text[..used] == IndexText(seg.indexKey, seg.indexVal)
  {
    IndexByteIsFirst(text, ']');
    var closeIdx := IndexByte(text, ']').value;
    var inner := text[..closeIdx];
    IndexByteIsFirst(inner, '=');
    var eqIdx := IndexByte(inner, '=').value;
    assert inner == inner[..eqIdx] + "=" + inner[eqIdx + 1..];
    assert text[..closeIdx + 1] == inner + "]";
  }

  /** What a parsed segment prints as, against the text it was read from. */
  predicate PrintsAs(seg: Segment, text: string) {
    && IsIdentifier(seg.name)
    && (if seg.indexVal == "" then seg.indexKey == "" else IndexShape(seg))
    && (if seg.indexVal != "" && seg.indexKey == "" then |SegmentString(seg)| < |text|
        else SegmentString(seg) == text)
  }

  lemma ParsedSegment(text: string, pos: nat)
    requires ParseSegment(text, pos).Ok?
    ensures var (seg, used) := ParseSegment(text, pos).value;
            PrintsAs(seg, text[..used])
  {
    IdentEndRun(text, 1);
    var end := IdentEnd(text, 1);
    var name := text[..end];
    if end < |text| && text[end] == '[' {
      ParsedIndex(name, text[end + 1..]);
      var (seg, used) := ParseIndex(name, text[end + 1..]).value;
      SplitBracket(text, end, used);
      assert text[..end + 1 + used] == name + ("[" + IndexText(seg.indexKey, seg.indexVal));
    }
  }

  lemma SplitBracket(text: string, end: nat, used: nat)
    requires end + 1 + used <= |text| && text[end] == '['
    ensures text[..end + 1 + used] == text[..end] + ("[" + text[end + 1..][..used])
  {
  }

  /** Printing a parsed string: exact when no index is dropped, and shorter otherwise. */
  predicate PrintsBack(segs: seq<Segment>, text: string) {
    && segs != []
    && (KeepsIndexes(segs) ==> Print(segs) == text && WellFormed(segs))
    && (!KeepsIndexes(segs) ==> |Print(segs)| < |text|)
  }

  /** How a successful read begins. */
  lemma ReadUnfold(read: Reader, text: string, pos: nat) returns (seg: Segment, used: nat, more: seq<Segment>)
    requires Advances(read) && ReadAll(read, text, pos).Ok?
    ensures read(text, pos) == Ok((seg, used)) && 0 < used <= |text|
    ensures used == |text| ==> ReadAll(read, text, pos).value == [seg]
    ensures used < |text| ==> text[used] == '.' && ReadAll(read, text[used + 1..], pos + used + 1) == Ok(more)
                              && ReadAll(read, text, pos).value == [seg] + more
  {
    seg, used := read(text, pos).value.0, read(text, pos).value.1;
    more := if used < |text| then ReadAll(read, text[used + 1..], pos + used + 1).value else [];
  }

  /** Induction over a successful read: a property of segments and of the text they came from
      holds of the whole when it holds of one segment and survives putting one in front. */
  lemma {:induction false} ReadInduction(read: Reader, one: (Segment, string) -> bool,
                                         many: (seq<Segment>, string) -> bool, text: string, pos: nat)
    requires Advances(read) && ReadAll(read, text, pos).Ok?
    requires forall t, at: nat {:trigger read(t, at)} :: read(t, at).Ok? ==> one(read(t, at).value.0, t[..read(t, at).value.1])
    requires forall seg, t :: one(seg, t) ==> many([seg], t)
    requires forall seg, more, head, tail {:trigger many([seg] + more, head + "." + tail)} ::
               one(seg, head) && many(more, tail) ==> many([seg] + more, head + "." + tail)
    ensures many(ReadAll(read, text, pos).value, text)
    decreases |text|
  {
    var seg, used, more := ReadUnfold(read, text, pos);
    assert one(seg, text[..used]);
    if used == |text| {
      assert text[..used] == text;
    } else {
      var tail := text[used + 1..];
      ReadInduction(read, one, many, tail, pos + used + 1);
      assert text == text[..used] + "." + tail;
      assert many([seg] + more, text[..used] + "." + tail);
    }
  }

  lemma PrintParsedOne(text: string, seg: Segment)
    requires PrintsAs(seg, text)
    ensures PrintsBack([seg], text)
  {
  }

  lemma PrintParsedCons(head: string, tail: string, seg: Segment, more: seq<Segment>)
    requires PrintsAs(seg, head) && PrintsBack(more, tail)
    ensures PrintsBack([seg] + more, head + "." + tail)
  {
    var segs := [seg] + more;
    assert segs[1..] == more && segs[0] == seg;
    assert forall k | 0 <= k < |more| :: segs[k + 1] == more[k];
    assert KeepsIndexes(segs) ==> KeepsIndexes(more);
    assert KeepsIndexes(more) && (seg.indexVal != "" ==> seg.indexKey != "") ==> KeepsIndexes(segs);
  }

  lemma ReaderPrints()
    ensures forall t, at: nat {:trigger ParseSegment(t, at)} :: ParseSegment(t, at).Ok? ==>
              PrintsAs(ParseSegment(t, at).value.0, t[..ParseSegment(t, at).value.1])
  {
    forall t, at: nat | ParseSegment(t, at).Ok?
      ensures PrintsAs(ParseSegment(t, at).value.0, t[..ParseSegment(t, at).value.1])
    {
      ParsedSegment(t, at);
    }
  }

  lemma PrintParsed(text: string, pos: nat)
    requires ParseFrom(text, pos).Ok?
    ensures PrintsBack(ParseFrom(text, pos).value, text)
  {
    ReaderPrints();
    forall seg, t | PrintsAs(seg, t) ensures PrintsBack([seg], t) { PrintParsedOne(t, seg); }
    forall seg, more, head, tail | PrintsAs(seg, head) && PrintsBack(more, tail)
      ensures PrintsBack([seg] + more, head + "." + tail)
    {
      PrintParsedCons(head, tail, seg, more);
    }
    ReadInduction(ParseSegment, PrintsAs, PrintsBack, text, pos);
  }

  /** Every index that will be printed has the shape of one. */
  predicate IndexesShaped(segs: seq<Segment>, text: string) {
    forall k | 0 <= k < |segs| :: segs[k].indexKey != "" ==> IndexShape(segs[k])
  }

  lemma ParsedIndexes(input: string)
    requires Parse(input).Ok?
    ensures IndexesShaped(Parse(input).value, "")
  {
    ReaderPrints();
    ReadInduction(ParseSegment, PrintsAs, IndexesShaped, input, 0);
  }

  /** Printing undoes parsing on exactly the accepted strings in which no index has an empty key. */
  lemma PrintParseRoundTrip(input: string)
    requires Parse(input).Ok?
    ensures Print(Parse(input).value) == input <==> KeepsIndexes(Parse(input).value)
  {
    PrintParsed(input, 0);
  }

  /** Parsing undoes printing on exactly the well-formed selectors. */
  lemma ParsePrintRoundTrip(segs: seq<Segment>)
    ensures Parse(Print(segs)) == Ok(segs) <==> WellFormed(segs)
  {
    if WellFormed(segs) {
      assert SegmentString(segs[0]) != "";
      ParsePrinted(segs, 0);
    }
    if Parse(Print(segs)) == Ok(segs) {
      PrintParsed(Print(segs), 0);
    }
  }

  /** The printer drops an index with an empty key: the accepted string "a[=v]" prints as "a". */
  lemma EmptyKeyIsDropped()
    ensures Parse("a[=v]") == Ok([Segment("a", "", "v")])
    ensures Print([Segment("a", "", "v")]) == "a"
  {
    ParsePrintedIndex("a", "", "v", "");
    IdentEndAt("a[=v]", 1, 1);
    assert "a[=v]"[2..] == IndexText("", "v") + "";
    assert "a[=v]"[..1] == "a";
  }
}
