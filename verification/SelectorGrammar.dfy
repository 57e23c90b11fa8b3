/** The texts the selector parser accepts, and why it refuses the others. */
module SelectorGrammar {
  import opened Outcomes
  import opened Selectors
  import opened Text

  /** The characters of identifiers by code point: letters and the underscore, and behind the
      first character also digits and the hyphen. */
  lemma IdentifierCharacters(c: char)
    ensures var n := c as int;
            && (IsIdentStart(c) <==> 97 <= n <= 122 || 65 <= n <= 90 || n == 95)
            && (IsIdentCont(c) <==> 97 <= n <= 122 || 65 <= n <= 90 || n == 95 || 48 <= n <= 57 || n == 45)
  {
  }

  /** A segment as it may be written: an identifier, with or without an index; the value of an
      index is not empty, its key may be. */
  predicate Grammatical(seg: Segment) {
    && IsIdentifier(seg.name)
    && if seg.indexVal == "" then seg.indexKey == "" else IndexShape(seg)
  }

  function Spell(seg: Segment): string {
    seg.name + if seg.indexVal == "" then "" else "[" + IndexText(seg.indexKey, seg.indexVal)
  }

  function SpellAll(segs: seq<Segment>): string {
    if segs == [] then ""
    else if |segs| == 1 then Spell(segs[0])
    else Spell(segs[0]) + "." + SpellAll(segs[1..])
  }

  /** The text is a spelling of the segments. */
  predicate Spells(segs: seq<Segment>, text: string) {
    segs != [] && (forall k | 0 <= k < |segs| :: Grammatical(segs[k])) && SpellAll(segs) == text
  }

  predicate SpellsOne(seg: Segment, text: string) {
    Grammatical(seg) && Spell(seg) == text
  }

  lemma SpellCons(seg: Segment, more: seq<Segment>)
    requires more != []
    ensures SpellAll([seg] + more) == Spell(seg) + "." + SpellAll(more)
  {
    assert ([seg] + more)[1..] == more;
  }

  // ----- what is spelled is read -----

  lemma BracketFirst(name: string, index: string, rest: string)
    ensures name + ("[" + index) + rest == name + ("[" + (index + rest))
    ensures ("[" + (index + rest))[0] == '[' && ("[" + (index + rest))[1..] == index + rest
    ensures |name + ("[" + index)| == |name| + 1 + |index|
  {}

  lemma ReadSpelledIndex(seg: Segment, index: string, rest: string, pos: nat)
    requires Grammatical(seg) && seg.indexVal != "" && index == IndexText(seg.indexKey, seg.indexVal)
    ensures ParseSegment(seg.name + ("[" + (index + rest)), pos) == Ok((seg, |seg.name| + 1 + |index|))
  {
    ParseAfterName(seg.name, "[" + (index + rest), pos);
    ParsePrintedIndex(seg.name, seg.indexKey, seg.indexVal, rest);
  }

  lemma ReadSpelledSegment(seg: Segment, rest: string, pos: nat)
    requires Grammatical(seg) && (rest == "" || rest[0] == '.')
    ensures ParseSegment(Spell(seg) + rest, pos) == Ok((seg, |Spell(seg)|))
  {
    if seg.indexVal == "" {
      ParseAfterName(seg.name, rest, pos);
      assert Spell(seg) == seg.name;
    } else {
      var index := IndexText(seg.indexKey, seg.indexVal);
      BracketFirst(seg.name, index, rest);
      ReadSpelledIndex(seg, index, rest, pos);
    }
  }

  ghost predicate ReadsSpelled(read: Reader) {
    forall seg, rest, pos: nat {:trigger read(Spell(seg) + rest, pos)} ::
      Grammatical(seg) && (rest == "" || rest[0] == '.') ==> read(Spell(seg) + rest, pos) == Ok((seg, |Spell(seg)|))
  }

  lemma ReadMoreSpelled(read: Reader, seg: Segment, tail: string, pos: nat)
    requires Advances(read) && ReadsSpelled(read) && Grammatical(seg)
    ensures ReadAll(read, Spell(seg) + "." + tail, pos) == After([seg], ReadAll(read, tail, pos + |Spell(seg)| + 1))
  {
    var first := Spell(seg);
    var text := first + ("." + tail);
    assert ("." + tail)[0] == '.';
    assert read(text, pos) == Ok((seg, |first|));
    assert first + "." + tail == text;
    ReadOn(read, text, pos, seg, |first|);
    assert text[|first| + 1..] == tail;
  }

  lemma ReadLastSpelled(read: Reader, seg: Segment, pos: nat)
    requires Advances(read) && ReadsSpelled(read) && Grammatical(seg)
    ensures ReadAll(read, Spell(seg), pos) == Ok([seg])
  {
    assert Spell(seg) + "" == Spell(seg);
  }

  /** A segment read up to a dot is followed by whatever is read behind the dot. */
  lemma ReadOn(read: Reader, text: string, pos: nat, seg: Segment, used: nat)
    requires Advances(read) && used < |text| && text[used] == '.' && read(text, pos) == Ok((seg, used))
    ensures ReadAll(read, text, pos) == After([seg], ReadAll(read, text[used + 1..], pos + used + 1))
  {}

  lemma ReadCons(read: Reader, seg: Segment, more: seq<Segment>, pos: nat)
    requires Advances(read) && ReadsSpelled(read) && Grammatical(seg) && more != []
    requires ReadAll(read, SpellAll(more), pos + |Spell(seg)| + 1) == Ok(more)
    ensures ReadAll(read, SpellAll([seg] + more), pos) == Ok([seg] + more)
  {
    SpellCons(seg, more);
    ReadMoreSpelled(read, seg, SpellAll(more), pos);
  }

  lemma {:induction false} ReadAllSpelled(read: Reader, segs: seq<Segment>, pos: nat)
    requires Advances(read) && ReadsSpelled(read)
    requires segs != [] && forall k | 0 <= k < |segs| :: Grammatical(segs[k])
    ensures ReadAll(read, SpellAll(segs), pos) == Ok(segs)
  {
    var seg, more := segs[0], segs[1..];
    if more == [] {
      assert segs == [seg];
      ReadLastSpelled(read, seg, pos);
    } else {
      assert segs == [seg] + more;
      ReadAllSpelled(read, more, pos + |Spell(seg)| + 1);
      ReadCons(read, seg, more, pos);
    }
  }

  lemma ReadSpelled(segs: seq<Segment>, pos: nat)
    requires Spells(segs, SpellAll(segs))
    ensures ParseFrom(SpellAll(segs), pos) == Ok(segs)
  {
    forall seg, rest, at: nat | Grammatical(seg) && (rest == "" || rest[0] == '.')
      ensures ParseSegment(Spell(seg) + rest, at) == Ok((seg, |Spell(seg)|))
    {
      ReadSpelledSegment(seg, rest, at);
    }
    ReadAllSpelled(ParseSegment, segs, pos);
  }

  // ----- what is read is spelled -----

  lemma ReadSegmentIsSpelled(text: string, pos: nat)
    requires ParseSegment(text, pos).Ok?
    ensures var (seg, used) := ParseSegment(text, pos).value; SpellsOne(seg, text[..used])
  {
    ParsedSegment(text, pos);
    var end := IdentEnd(text, 1);
    if end < |text| && text[end] == '[' {
      ParsedIndex(text[..end], text[end + 1..]);
      SplitBracket(text, end, ParseIndex(text[..end], text[end + 1..]).value.1);
    }
  }

  lemma SpelledCons(seg: Segment, more: seq<Segment>, head: string, tail: string)
    requires SpellsOne(seg, head) && Spells(more, tail)
    ensures Spells([seg] + more, head + "." + tail)
  {
    SpellCons(seg, more);
  }

  lemma ReadIsSpelled(text: string, pos: nat)
    requires ParseFrom(text, pos).Ok?
    ensures Spells(ParseFrom(text, pos).value, text)
  {
    forall t, at: nat | ParseSegment(t, at).Ok?
      ensures SpellsOne(ParseSegment(t, at).value.0, t[..ParseSegment(t, at).value.1])
    {
      ReadSegmentIsSpelled(t, at);
    }
    forall seg, more, head, tail | SpellsOne(seg, head) && Spells(more, tail)
      ensures Spells([seg] + more, head + "." + tail)
    {
      SpelledCons(seg, more, head, tail);
    }
    ReadInduction(ParseSegment, SpellsOne, Spells, text, pos);
  }

  /** The parser accepts exactly the spellings of grammatical segments, and returns those
      segments; so no text has two readings. */
  lemma Accepts(input: string, segs: seq<Segment>)
    ensures Parse(input) == Ok(segs) <==> Spells(segs, input)
  {
    if Spells(segs, input) {
      assert Spell(segs[0]) != "";
      ReadSpelled(segs, 0);
    }
    if Parse(input) == Ok(segs) { ReadIsSpelled(input, 0); }
  }

  lemma TwoSegments(a: Segment, b: Segment)
    requires Grammatical(a) && Grammatical(b)
    ensures Parse(Spell(a) + "." + Spell(b)) == Ok([a, b])
  {
    SpellCons(a, [b]);
    Accepts(Spell(a) + "." + Spell(b), [a, b]);
  }

  lemma PlainText()
    ensures Parse("a1.b") == Ok([Segment("a1", "", ""), Segment("b", "", "")])
  {
    var a, b := Segment("a1", "", ""), Segment("b", "", "");
    assert Spell(a) + "." + Spell(b) == "a1.b";
    TwoSegments(a, b);
  }

  lemma IndexedText()
    ensures Parse("s[n=x.y].m-2") == Ok([Segment("s", "n", "x.y"), Segment("m-2", "", "")])
  {
    var a, b := Segment("s", "n", "x.y"), Segment("m-2", "", "");
    assert Spell(a) + "." + Spell(b) == "s[n=x.y].m-2";
    TwoSegments(a, b);
  }

  // ----- why a text is refused -----

  /** What is wrong with the text from position pos on. */
  ghost predicate Explains(e: ParseError, text: string, pos: nat) {
    match e
    case EmptyIdentifier(p) => p == pos && (text == "" || !IsIdentStart(text[0]))
    case UnmatchedBracket(name) => IsIdentifier(name) && name + "[" <= text && ']' !in text[|name| + 1..]
    case MissingEquals(shown) => shown <= text && exists name, inner :: IsBare(shown, name, inner)
    case EmptyValue(shown) => shown <= text && exists name, key :: IsKeyOnly(shown, name, key)
    case _ => false
  }

  /** A segment whose index has no equals sign. */
  predicate IsBare(shown: string, name: string, inner: string) {
    IsIdentifier(name) && ']' !in inner && '=' !in inner && shown == name + "[" + inner + "]"
  }

  /** A segment whose index has no value. */
  predicate IsKeyOnly(shown: string, name: string, key: string) {
    IsIdentifier(name) && ']' !in key && '=' !in key && shown == name + "[" + key + "=]"
  }

  lemma {:induction false} NotFound(s: string, c: char)
    requires IndexByte(s, c).None?
    ensures c !in s
  {
    if s != "" { NotFound(s[1..], c); }
  }

  lemma IndexError(name: string, text: string)
    requires IsIdentifier(name) && ParseIndex(name, text).Err?
    ensures Explains(ParseIndex(name, text).error, name + "[" + text, 0)
  {
    var whole := name + "[" + text;
    var close := IndexByte(text, ']');
    if close.None? {
      NotFound(text, ']');
      assert whole[|name| + 1..] == text;
    } else {
      IndexByteIsFirst(text, ']');
      var inner := text[..close.value];
      var shown := name + "[" + text[..close.value + 1];
      assert text[..close.value + 1] == inner + "]";
      assert whole[..|shown|] == shown;
      if IndexByte(inner, '=').None? {
        NotFound(inner, '=');
        assert IsBare(shown, name, inner);
      } else {
        IndexByteIsFirst(inner, '=');
        var key := inner[..IndexByte(inner, '=').value];
        assert inner == key + "=";
        assert IsKeyOnly(shown, name, key);
      }
    }
  }

  lemma SegmentError(text: string, pos: nat)
    requires ParseSegment(text, pos).Err?
    ensures Explains(ParseSegment(text, pos).error, text, pos)
  {
    if text != "" && IsIdentStart(text[0]) {
      IdentEndRun(text, 1);
      var end := IdentEnd(text, 1);
      IndexError(text[..end], text[end + 1..]);
      assert text == text[..end] + "[" + text[end + 1..];
    }
  }

  /** The segments read before a fault, as they stand in the text. */
  function Front(segs: seq<Segment>): string {
    if segs == [] then "" else SpellAll(segs) + "."
  }

  /** The text begins with grammatical segments, and behind them comes either a character that
      is no dot or a fault in the next segment. */
  ghost predicate Refused(e: ParseError, text: string, pos: nat, segs: seq<Segment>) {
    && (forall k | 0 <= k < |segs| :: Grammatical(segs[k]))
    && if e.UnexpectedCharacter? then
         && segs != [] && SpellAll(segs) < text && e.pos == pos + |SpellAll(segs)|
         && e.c == text[|SpellAll(segs)|] && e.c != '.'
       else Front(segs) <= text && Explains(e, text[|Front(segs)|..], pos + |Front(segs)|)
  }

  lemma FrontCons(seg: Segment, segs: seq<Segment>)
    ensures Front([seg] + segs) == Spell(seg) + "." + Front(segs)
    ensures segs != [] ==> SpellAll([seg] + segs) == Spell(seg) + "." + SpellAll(segs)
  {
    if segs != [] { SpellCons(seg, segs); }
  }

  /** A prefix of the tail behind a head. */
  lemma Shifted(head: string, front: string, tail: string)
    requires front <= tail
    ensures var text := head + "." + tail;
            && head + "." + front <= text
            && text[|head| + 1 + |front|..] == tail[|front|..]
            && (|front| < |tail| ==> text[|head| + 1 + |front|] == tail[|front|])
  {
    var text := head + "." + tail;
    assert text == (head + "." + front) + tail[|front|..];
  }

  lemma UnexpectedLater(e: ParseError, seg: Segment, tail: string, pos: nat, segs: seq<Segment>)
    requires e.UnexpectedCharacter? && Grammatical(seg) && Refused(e, tail, pos + |Spell(seg)| + 1, segs)
    ensures Refused(e, Spell(seg) + "." + tail, pos, [seg] + segs)
  {
    FrontCons(seg, segs);
    Shifted(Spell(seg), SpellAll(segs), tail);
  }

  lemma FaultLater(e: ParseError, seg: Segment, tail: string, pos: nat, segs: seq<Segment>)
    requires !e.UnexpectedCharacter? && Grammatical(seg) && Refused(e, tail, pos + |Spell(seg)| + 1, segs)
    ensures Refused(e, Spell(seg) + "." + tail, pos, [seg] + segs)
  {
    FrontCons(seg, segs);
    Shifted(Spell(seg), Front(segs), tail);
  }

  lemma RefusedLater(e: ParseError, seg: Segment, tail: string, pos: nat, segs: seq<Segment>)
    requires Grammatical(seg) && Refused(e, tail, pos + |Spell(seg)| + 1, segs)
    ensures Refused(e, Spell(seg) + "." + tail, pos, [seg] + segs)
  {
    if e.UnexpectedCharacter? { UnexpectedLater(e, seg, tail, pos, segs); } else { FaultLater(e, seg, tail, pos, segs); }
  }

  lemma RefusedHere(text: string, pos: nat)
    requires ParseSegment(text, pos).Err?
    ensures ParseFrom(text, pos) == Err(ParseSegment(text, pos).error)
    ensures Refused(ParseSegment(text, pos).error, text, pos, [])
  {
    SegmentError(text, pos);
    assert text[0..] == text;
  }

  lemma RefusedBehind(text: string, pos: nat, seg: Segment, used: nat)
    requires ParseSegment(text, pos) == Ok((seg, used)) && used < |text| && text[used] != '.'
    ensures ParseFrom(text, pos) == Err(UnexpectedCharacter(text[used], pos + used))
    ensures Refused(UnexpectedCharacter(text[used], pos + used), text, pos, [seg])
  {
    ReadSegmentIsSpelled(text, pos);
  }

  lemma CutAtDot(text: string, k: nat)
    requires k < |text| && text[k] == '.'
    ensures text == text[..k] + "." + text[k + 1..]
  {}

  lemma SplitAtDot(text: string, pos: nat, seg: Segment, used: nat) returns (tail: string)
    requires ParseSegment(text, pos) == Ok((seg, used)) && used < |text| && text[used] == '.'
    ensures tail == text[used + 1..] && |Spell(seg)| == used
    ensures Grammatical(seg) && text == Spell(seg) + "." + tail
  {
    ReadSegmentIsSpelled(text, pos);
    CutAtDot(text, used);
    return text[used + 1..];
  }

  lemma {:induction false} FaultIn(text: string, pos: nat) returns (segs: seq<Segment>)
    requires ParseFrom(text, pos).Err?
    ensures Refused(ParseFrom(text, pos).error, text, pos, segs)
    decreases |text|
  {
    var first := ParseSegment(text, pos);
    if first.Err? {
      RefusedHere(text, pos);
      return [];
    }
    var seg, used := first.value.0, first.value.1;
    if text[used] == '.' {
      var tail := SplitAtDot(text, pos, seg, used);
      ReadOn(ParseSegment, text, pos, seg, used);
      segs := FaultIn(tail, pos + used + 1);
      RefusedLater(ParseFrom(tail, pos + used + 1).error, seg, tail, pos, segs);
      segs := [seg] + segs;
    } else {
      RefusedBehind(text, pos, seg, used);
      segs := [seg];
    }
  }

  /** The empty text is refused as such, and every other refusal names a fault that is there,
      at its place, behind segments that are in order. */
  lemma Faults(input: string)
    requires Parse(input).Err?
    ensures Parse(input) == Err(EmptyInput) <==> input == ""
    ensures input != "" ==> exists segs :: Refused(Parse(input).error, input, 0, segs)
  {
    if input != "" {
      var segs := FaultIn(input, 0);
    }
  }
}
