/** The associated-data strings that bind Lumo ciphertexts to what they belong to.

    Strings are sequences of bytes, written as chars.  A reader for JSON string literals is
    the partner of the escaper: it recovers the escaped value and finds its end, so the
    strings built for two different subjects are never equal. */
module AssociatedData {
  import opened Outcomes

  predicate NeedsEscape(c: char) {
    c == '"' || c == '\\' || c == '\n' || c == '\r' || c == '\t'
  }

  function EscapeChar(c: char): (e: string) {
    match c
    case '"' => "\\\""
    case '\\' => "\\\\"
    case '\n' => "\\n"
    case '\r' => "\\r"
    case '\t' => "\\t"
    case _ => [c]
  }

  function Escape(s: string): string {
    if s == "" then "" else EscapeChar(s[0]) + Escape(s[1..])
  }

  /** What is escaped, and how, by code point: a backslash in front, and a letter for the three
      control characters. */
  lemma EscapeCodes(c: char)
    ensures var e := EscapeChar(c);
            match c as int
            case 34 => |e| == 2 && e[0] as int == 92 && e[1] as int == 34
            case 92 => |e| == 2 && e[0] as int == 92 && e[1] as int == 92
            case 10 => |e| == 2 && e[0] as int == 92 && e[1] as int == 110
            case 13 => |e| == 2 && e[0] as int == 92 && e[1] as int == 114
            case 9 => |e| == 2 && e[0] as int == 92 && e[1] as int == 116
            case _ => e == [c]
  {
  }

  lemma {:induction false} EscapeSnoc(s: string, c: char)
    ensures Escape(s + [c]) == Escape(s) + EscapeChar(c)
  {
    if s == "" {
      assert Escape([c]) == EscapeChar(c) + Escape([c][1..]);
    } else {
      assert (s + [c])[1..] == s[1..] + [c];
      EscapeSnoc(s[1..], c);
    }
  }

  lemma {:induction false} PlainEscape(s: string)
    requires forall k | 0 <= k < |s| :: !NeedsEscape(s[k])
    ensures Escape(s) == s
  {
    if s != "" {
      assert EscapeChar(s[0]) == [s[0]];
      PlainEscape(s[1..]);
    }
  }

  /** The escaper: a scan that returns s itself when nothing needs escaping. */
  method JsonEscape(s: string) returns (e: string)
    ensures e == Escape(s)
  {
    for i := 0 to |s|
      invariant forall k | 0 <= k < i :: !NeedsEscape(s[k])
    {
      if NeedsEscape(s[i]) {
        e := JsonEscapeSlow(s);
        return;
      }
    }
    PlainEscape(s);
    e := s;
  }

  method JsonEscapeSlow(s: string) returns (e: string)
    ensures e == Escape(s)
  {
    var buf := "";
    for i := 0 to |s|
      invariant buf == Escape(s[..i])
    {
      EscapeSnoc(s[..i], s[i]);
      assert s[..i + 1] == s[..i] + [s[i]];
      if s[i] == '"' { buf := buf + ['\\', '"']; }
      else if s[i] == '\\' { buf := buf + ['\\', '\\']; }
      else if s[i] == '\n' { buf := buf + ['\\', 'n']; }
      else if s[i] == '\r' { buf := buf + ['\\', 'r']; }
      else if s[i] == '\t' { buf := buf + ['\\', 't']; }
      else { buf := buf + [s[i]]; }
    }
    assert s[..|s|] == s;
    e := buf;
  }

  // ----- reading a string literal back -----

  /** Reads the body of a string literal up to its closing quote: the value and what follows
      the quote.  None when the literal does not close or holds an unknown escape. */
  function ReadString(s: string): (r: Option<(string, string)>)
    ensures r.Some? ==> |r.value.1| < |s|
  {
    if s == "" then None
    else if s[0] == '"' then Some(("", s[1..]))
    else if s[0] != '\\' then Prepend(s[0], ReadString(s[1..]))
    else if |s| < 2 then None
    else
      match s[1]
      case '"' => Prepend('"', ReadString(s[2..]))
      case '\\' => Prepend('\\', ReadString(s[2..]))
      case 'n' => Prepend('\n', ReadString(s[2..]))
      case 'r' => Prepend('\r', ReadString(s[2..]))
      case 't' => Prepend('\t', ReadString(s[2..]))
      case _ => None
  }

  function Prepend(c: char, read: Option<(string, string)>): Option<(string, string)> {
    match read
    case None => None
    case Some((value, rest)) => Some(([c] + value, rest))
  }

  /** Escaping is invertible and leaves no unescaped quote: the reader stops exactly at the
      quote that follows the escaped text. */
  lemma {:induction false} ReadEscaped(s: string, rest: string)
    ensures ReadString(Escape(s) + "\"" + rest) == Some((s, rest))
  {
    if s == "" {
      assert Escape(s) + "\"" + rest == "\"" + rest;
    } else {
      ReadEscaped(s[1..], rest);
      var tail := Escape(s[1..]) + "\"" + rest;
      var e := EscapeChar(s[0]);
      assert Escape(s) + "\"" + rest == e + tail;
      assert (e + tail)[|e|..] == tail;
      assert [s[0]] + s[1..] == s;
    }
  }

  lemma EscapedInjective(s: string, rest: string, s': string, rest': string)
    requires Escape(s) + "\"" + rest == Escape(s') + "\"" + rest'
    ensures s == s' && rest == rest'
  {
    ReadEscaped(s, rest);
    ReadEscaped(s', rest');
  }

  // ----- the builders -----

  function SpaceAD(spaceTag: string): string {
    "{\"app\":\"lumo\",\"id\":\"" + Escape(spaceTag) + "\",\"type\":\"space\"}"
  }

  function ConversationAD(convTag: string, spaceTag: string): string {
    "{\"app\":\"lumo\",\"id\":\"" + Escape(convTag) +
    "\",\"spaceId\":\"" + Escape(spaceTag) +
    "\",\"type\":\"conversation\"}"
  }

  function MessageAD(msgTag: string, role: string, parentId: string, convTag: string): string {
    MessageFrom("{\"app\":\"lumo\",\"conversationId\":\"" + Escape(convTag) +
                "\",\"id\":\"" + Escape(msgTag) + "\"", parentId, role)
  }

  /** The rest of a message's data; the parent key is left out when the parent id is empty. */
  function MessageFrom(s: string, parentId: string, role: string): string {
    var p := if parentId != "" then s + ",\"parentId\":\"" + Escape(parentId) + "\"" else s;
    p + ",\"role\":\"" + Escape(role) + "\",\"type\":\"message\"}"
  }

  /** What a ciphertext can belong to. */
  datatype Subject =
    | Space(spaceTag: string)
    | Conversation(convTag: string, spaceTag: string)
    | Message(msgTag: string, role: string, parentId: string, convTag: string)

  function AD(x: Subject): string {
    match x
    case Space(s) => SpaceAD(s)
    case Conversation(c, s) => ConversationAD(c, s)
    case Message(m, r, p, c) => MessageAD(m, r, p, c)
  }

  const APP: string := "{\"app\":\"lumo\",\""
  const ID: string := "id\":\""
  const CONVERSATION_ID: string := "conversationId\":\""
  const SPACE_ID: string := ",\"spaceId\":\""
  const PARENT_ID: string := ",\"parentId\":\""
  const ROLE: string := ",\"role\":\""
  const MESSAGE_ID: string := ",\"id\":\""
  const SPACE_END: string := ",\"type\":\"space\"}"
  const CONVERSATION_END: string := ",\"type\":\"conversation\"}"
  const MESSAGE_END: string := ",\"type\":\"message\"}"

  /** Every string is a fixed opening and then literals: the shape the reader follows. */
  lemma Layout(x: Subject)
    ensures match x
            case Space(s) => AD(x) == APP + (ID + (Escape(s) + "\"" + SPACE_END))
            case Conversation(c, s) =>
              AD(x) == APP + (ID + (Escape(c) + "\"" + (SPACE_ID + (Escape(s) + "\"" + CONVERSATION_END))))
            case Message(m, r, p, c) =>
              AD(x) == APP + (CONVERSATION_ID + (Escape(c) + "\"" + (MESSAGE_ID + (Escape(m) + "\"" + MessageTail(p, r)))))
  {
    Chunks();
    match x
    case Space(s) =>
      Regroup(APP, ID, Escape(s), "\"", SPACE_END);
    case Conversation(c, s) =>
      Regroup(SPACE_ID, "", Escape(s), "\"", CONVERSATION_END);
      Regroup(APP, ID, Escape(c), "\"", SPACE_ID + (Escape(s) + "\"" + CONVERSATION_END));
      ConversationChunks(APP + ID, Escape(c), Escape(s));
    case Message(m, r, p, c) =>
      MessageChunks(APP + CONVERSATION_ID, Escape(c), Escape(m), p, r);
      Regroup(APP, CONVERSATION_ID, Escape(c), "\"", MESSAGE_ID + (Escape(m) + "\"" + MessageTail(p, r)));
  }

  lemma Chunks()
    ensures "{\"app\":\"lumo\",\"id\":\"" == APP + ID
    ensures "{\"app\":\"lumo\",\"conversationId\":\"" == APP + CONVERSATION_ID
    ensures "\",\"type\":\"space\"}" == "\"" + SPACE_END
  {
  }

  lemma Regroup(a: string, b: string, c: string, d: string, e: string)
    ensures (a + b) + c + (d + e) == a + (b + (c + d + e))
  {
  }

  lemma ConversationChunks(open: string, c: string, s: string)
    ensures open + c + "\",\"spaceId\":\"" + s + "\",\"type\":\"conversation\"}"
         == open + c + ("\"" + (SPACE_ID + (s + "\"" + CONVERSATION_END)))
  {
    assert "\",\"spaceId\":\"" == "\"" + SPACE_ID;
    assert "\",\"type\":\"conversation\"}" == "\"" + CONVERSATION_END;
  }

  lemma MessageChunks(open: string, c: string, m: string, p: string, r: string)
    ensures MessageFrom(open + c + "\",\"id\":\"" + m + "\"", p, r)
         == open + c + ("\"" + (MESSAGE_ID + (m + "\"" + MessageTail(p, r))))
  {
    assert "\",\"id\":\"" == "\"" + MESSAGE_ID;
    var head := open + c + "\",\"id\":\"" + m + "\"";
    TailChunks(head, p, r);
    RegroupId(open + c, m, MessageTail(p, r));
  }

  lemma RegroupId(open: string, m: string, tail: string)
    ensures open + ("\"" + MESSAGE_ID) + m + "\"" + tail == open + ("\"" + (MESSAGE_ID + (m + "\"" + tail)))
  {
  }

  lemma TailChunks(head: string, p: string, r: string)
    ensures MessageFrom(head, p, r) == head + MessageTail(p, r)
  {
    RoleChunks(head, Escape(r));
    if p != "" {
      var e := Escape(p);
      RoleChunks(head + PARENT_ID + e + "\"", Escape(r));
      RegroupParent(head, e, RoleTail(r));
    }
  }

  lemma RegroupParent(head: string, e: string, tail: string)
    ensures head + PARENT_ID + e + "\"" + tail == head + (PARENT_ID + (e + "\"" + tail))
  {
  }

  lemma RoleChunks(head: string, e: string)
    ensures head + ROLE + e + "\",\"type\":\"message\"}" == head + (ROLE + (e + "\"" + MESSAGE_END))
  {
    assert "\",\"type\":\"message\"}" == "\"" + MESSAGE_END;
  }

  function MessageTail(parentId: string, role: string): string {
    (if parentId != "" then PARENT_ID + (Escape(parentId) + "\"" + RoleTail(role)) else RoleTail(role))
  }

  function RoleTail(role: string): string {
    ROLE + (Escape(role) + "\"" + MESSAGE_END)
  }

  lemma StripPrefix(p: string, x: string, y: string)
    requires p + x == p + y
    ensures x == y
  {
    assert (p + x)[|p|..] == x && (p + y)[|p|..] == y;
  }

  lemma MessageTailInjective(p: string, r: string, p': string, r': string)
    requires MessageTail(p, r) == MessageTail(p', r')
    ensures p == p' && r == r'
  {
    assert p != "" ==> MessageTail(p, r)[2] == 'p';
    assert p == "" ==> MessageTail(p, r)[2] == 'r';
    assert p' != "" ==> MessageTail(p', r')[2] == 'p';
    assert p' == "" ==> MessageTail(p', r')[2] == 'r';
    if p != "" {
      StripPrefix(PARENT_ID, Escape(p) + "\"" + RoleTail(r), Escape(p') + "\"" + RoleTail(r'));
      EscapedInjective(p, RoleTail(r), p', RoleTail(r'));
    }
    StripPrefix(ROLE, Escape(r) + "\"" + MESSAGE_END, Escape(r') + "\"" + MESSAGE_END);
    EscapedInjective(r, MESSAGE_END, r', MESSAGE_END);
  }

  /** Different subjects have different associated data: the three builders never collide
      with one another, and each is injective in all of its arguments. */
  lemma ADInjective(x: Subject, y: Subject)
    requires AD(x) == AD(y)
    ensures x == y
  {
    Layout(x);
    Layout(y);
    FirstKey(x);
    FirstKey(y);
    match (x, y)
    case (Space(s), Space(s')) =>
      SpaceInjective(s, s');
    case (Conversation(c, s), Conversation(c', s')) =>
      ConversationInjective(c, s, c', s');
    case (Message(m, r, p, c), Message(m', r', p', c')) =>
      MessageInjective(m, r, p, c, m', r', p', c');
    case (Space(s), Conversation(c, s')) =>
      SpaceIsNotConversation(s, c, s');
    case (Conversation(c, s'), Space(s)) =>
      SpaceIsNotConversation(s, c, s');
    case _ =>
  }

  lemma FirstKey(x: Subject)
    ensures |AD(x)| > |APP| && AD(x)[|APP|] == if x.Message? then 'c' else 'i'
  {
    Layout(x);
  }

  lemma SpaceInjective(s: string, s': string)
    requires SpaceAD(s) == SpaceAD(s')
    ensures s == s'
  {
    Layout(Space(s));
    Layout(Space(s'));
    var end := SPACE_END;
    StripPrefix(APP, ID + (Escape(s) + "\"" + end), ID + (Escape(s') + "\"" + end));
    StripPrefix(ID, Escape(s) + "\"" + end, Escape(s') + "\"" + end);
    EscapedInjective(s, end, s', end);
  }

  lemma ConversationInjective(c: string, s: string, c': string, s': string)
    requires ConversationAD(c, s) == ConversationAD(c', s')
    ensures c == c' && s == s'
  {
    Layout(Conversation(c, s));
    Layout(Conversation(c', s'));
    var end := CONVERSATION_END;
    var t, t' := Escape(s) + "\"" + end, Escape(s') + "\"" + end;
    StripPrefix(APP, ID + (Escape(c) + "\"" + (SPACE_ID + t)), ID + (Escape(c') + "\"" + (SPACE_ID + t')));
    StripPrefix(ID, Escape(c) + "\"" + (SPACE_ID + t), Escape(c') + "\"" + (SPACE_ID + t'));
    EscapedInjective(c, SPACE_ID + t, c', SPACE_ID + t');
    StripPrefix(SPACE_ID, t, t');
    EscapedInjective(s, end, s', end);
  }

  lemma TypeIsNotSpaceId(t: string)
    ensures SPACE_END != SPACE_ID + t
  {
    assert SPACE_END[2] == 't' && (SPACE_ID + t)[2] == 's';
  }

  lemma SpaceIsNotConversation(s: string, c: string, s': string)
    ensures SpaceAD(s) != ConversationAD(c, s')
  {
    if SpaceAD(s) == ConversationAD(c, s') {
      Layout(Space(s));
      Layout(Conversation(c, s'));
      var end := SPACE_END;
      var t := SPACE_ID + (Escape(s') + "\"" + CONVERSATION_END);
      StripPrefix(APP, ID + (Escape(s) + "\"" + end), ID + (Escape(c) + "\"" + t));
      StripPrefix(ID, Escape(s) + "\"" + end, Escape(c) + "\"" + t);
      TypeIsNotSpaceId(Escape(s') + "\"" + CONVERSATION_END);
      EscapedInjective(s, end, c, t);
    }
  }

  lemma MessageInjective(m: string, r: string, p: string, c: string,
                         m': string, r': string, p': string, c': string)
    requires MessageAD(m, r, p, c) == MessageAD(m', r', p', c')
    ensures m == m' && r == r' && p == p' && c == c'
  {
    Layout(Message(m, r, p, c));
    Layout(Message(m', r', p', c'));
    var key := MESSAGE_ID;
    var t, t' := Escape(m) + "\"" + MessageTail(p, r), Escape(m') + "\"" + MessageTail(p', r');
    StripPrefix(APP, CONVERSATION_ID + (Escape(c) + "\"" + (key + t)), CONVERSATION_ID + (Escape(c') + "\"" + (key + t')));
    StripPrefix(CONVERSATION_ID, Escape(c) + "\"" + (key + t), Escape(c') + "\"" + (key + t'));
    EscapedInjective(c, key + t, c', key + t');
    StripPrefix(key, t, t');
    EscapedInjective(m, MessageTail(p, r), m', MessageTail(p', r'));
    MessageTailInjective(p, r, p', r');
  }

  // ----- the strings as objects -----

  type Member = (string, string)

  /** Reads one member of an object, a key and a string value, and what follows it. */
  function ReadMember(s: string): (r: Option<(Member, string)>)
    ensures r.Some? ==> |r.value.1| < |s|
  {
    if s == "" || s[0] != '"' then None
    else
      match ReadString(s[1..])
      case None => None
      case Some((key, rest)) =>
        if |rest| < 2 || rest[0] != ':' || rest[1] != '"' then None
        else
          match ReadString(rest[2..])
          case None => None
          case Some((value, end)) => Some(((key, value), end))
  }

  /** Reads members separated by commas up to the closing brace, which must be the end. */
  function ReadMembers(s: string): Option<seq<Member>>
    decreases |s|
  {
    match ReadMember(s)
    case None => None
    case Some((m, rest)) =>
      if rest == "}" then Some([m])
      else if rest != "" && rest[0] == ',' then
        match ReadMembers(rest[1..])
        case None => None
        case Some(ms) => Some([m] + ms)
      else None
  }

  /** An object of string members: one brace, the members, one brace. */
  function ReadObject(s: string): Option<seq<Member>> {
    if s == "" || s[0] != '{' then None else ReadMembers(s[1..])
  }

  predicate Plain(s: string) {
    forall k | 0 <= k < |s| :: !NeedsEscape(s[k])
  }

  /** Members, each with a comma in front, and the closing brace. */
  function Tail(ms: seq<Member>): string {
    if ms == [] then "}"
    else ",\"" + ms[0].0 + "\":\"" + (Escape(ms[0].1) + "\"" + Tail(ms[1..]))
  }

  /** The object of these members; the keys are written as they are. */
  function Object(ms: seq<Member>): string {
    if ms == [] then "{}" else "{" + Tail(ms)[1..]
  }

  lemma TailCons(key: string, value: string, more: seq<Member>)
    ensures Tail([(key, value)] + more) == ",\"" + key + "\":\"" + (Escape(value) + "\"" + Tail(more))
  {
    assert ([(key, value)] + more)[1..] == more;
  }

  lemma MemberIsRead(key: string, value: string, rest: string)
    requires Plain(key)
    ensures ReadMember((",\"" + key + "\":\"" + (Escape(value) + "\"" + rest))[1..]) == Some(((key, value), rest))
  {
    var behind := ":\"" + (Escape(value) + "\"" + rest);
    var text := (",\"" + key + "\":\"" + (Escape(value) + "\"" + rest))[1..];
    assert text[1..] == key + "\"" + behind;
    PlainEscape(key);
    ReadEscaped(key, behind);
    assert behind[2..] == Escape(value) + "\"" + rest;
    ReadEscaped(value, rest);
  }

  /** An object is read back member by member. */
  lemma {:induction false} TailIsRead(ms: seq<Member>)
    requires ms != [] && forall k | 0 <= k < |ms| :: Plain(ms[k].0)
    ensures Tail(ms) != "" && ReadMembers(Tail(ms)[1..]) == Some(ms)
  {
    var key, value, more := ms[0].0, ms[0].1, ms[1..];
    MemberIsRead(key, value, Tail(more));
    if more == [] {
      assert ms == [(key, value)];
      assert Tail(more) == "}";
    } else {
      assert ms == [(key, value)] + more;
      TailIsRead(more);
      assert Tail(more)[0] == ',' && Tail(more) != "}";
    }
  }

  /** The members of an associated-data string. */
  function Members(x: Subject): seq<Member> {
    match x
    case Space(s) => [("app", "lumo"), ("id", s), ("type", "space")]
    case Conversation(c, s) => [("app", "lumo"), ("id", c), ("spaceId", s), ("type", "conversation")]
    case Message(m, r, p, c) =>
      [("app", "lumo"), ("conversationId", c), ("id", m)]
      + (if p != "" then [("parentId", p)] else [])
      + [("role", r), ("type", "message")]
  }

  lemma ObjectText(key: string, value: string, more: seq<Member>)
    ensures Object([("app", "lumo")] + ([(key, value)] + more)) == APP + (key + "\":\"" + (Escape(value) + "\"" + Tail(more)))
  {
    var rest := [(key, value)] + more;
    var tail := Escape(value) + "\"" + Tail(more);
    TailCons("app", "lumo", rest);
    TailCons(key, value, more);
    PlainEscape("lumo");
    Opening(Tail(rest), key, tail);
  }

  lemma Opening(text: string, key: string, tail: string)
    requires text == ",\"" + key + "\":\"" + tail
    ensures "{" + (",\"" + "app" + "\":\"" + ("lumo" + "\"" + text))[1..] == APP + (key + "\":\"" + tail)
  {
    assert "{" + (",\"" + "app" + "\":\"" + ("lumo" + "\"" + text))[1..] == "{\"app\":\"lumo\"" + text;
    assert text == ",\"" + (key + "\":\"" + tail);
    assert "{\"app\":\"lumo\"" + ",\"" == APP;
  }

  lemma LastText(key: string, value: string)
    requires Plain(value)
    ensures Tail([(key, value)]) == ",\"" + key + "\":\"" + value + "\"}"
  {
    PlainEscape(value);
    TailCons(key, value, []);
    assert [(key, value)] + [] == [(key, value)];
    assert ",\"" + key + "\":\"" + (value + "\"" + "}") == ",\"" + key + "\":\"" + value + "\"}";
  }

  lemma Words()
    ensures "id" + "\":\"" == ID && "conversationId" + "\":\"" == CONVERSATION_ID
    ensures ",\"" + "spaceId" + "\":\"" == SPACE_ID && ",\"" + "id" + "\":\"" == MESSAGE_ID
    ensures ",\"" + "parentId" + "\":\"" == PARENT_ID && ",\"" + "role" + "\":\"" == ROLE
  {
  }

  lemma Endings()
    ensures ",\"" + "type" + "\":\"" + "space" + "\"}" == SPACE_END
    ensures ",\"" + "type" + "\":\"" + "conversation" + "\"}" == CONVERSATION_END
    ensures ",\"" + "type" + "\":\"" + "message" + "\"}" == MESSAGE_END
  {
  }

  lemma SpaceObject(s: string)
    ensures AD(Space(s)) == Object([("app", "lumo")] + ([("id", s)] + [("type", "space")]))
  {
    Layout(Space(s));
    Words();
    Endings();
    LastText("type", "space");
    ObjectText("id", s, [("type", "space")]);
  }

  /** The last two members. */
  lemma PairText(key: string, value: string, last: string, kind: string, open: string, end: string)
    requires Plain(kind) && open == ",\"" + key + "\":\"" && end == ",\"" + last + "\":\"" + kind + "\"}"
    ensures Tail([(key, value)] + [(last, kind)]) == open + (Escape(value) + "\"" + end)
  {
    LastText(last, kind);
    TailCons(key, value, [(last, kind)]);
  }

  lemma SpaceIdText(s: string)
    ensures Tail([("spaceId", s)] + [("type", "conversation")]) == SPACE_ID + (Escape(s) + "\"" + CONVERSATION_END)
  {
    Words();
    Endings();
    PairText("spaceId", s, "type", "conversation", SPACE_ID, CONVERSATION_END);
  }

  lemma ConversationObject(c: string, s: string)
    ensures AD(Conversation(c, s)) ==
            Object([("app", "lumo")] + ([("id", c)] + ([("spaceId", s)] + [("type", "conversation")])))
  {
    Layout(Conversation(c, s));
    Words();
    SpaceIdText(s);
    ObjectText("id", c, [("spaceId", s)] + [("type", "conversation")]);
  }

  lemma RoleText(r: string)
    ensures Tail([("role", r)] + [("type", "message")]) == RoleTail(r)
  {
    Words();
    Endings();
    PairText("role", r, "type", "message", ROLE, MESSAGE_END);
  }

  lemma MessageText(p: string, r: string)
    ensures Tail((if p != "" then [("parentId", p)] else []) + ([("role", r)] + [("type", "message")])) == MessageTail(p, r)
  {
    var last := [("role", r)] + [("type", "message")];
    RoleText(r);
    if p == "" {
      assert [] + last == last;
    } else {
      Words();
      TailCons("parentId", p, last);
    }
  }

  lemma MessageObject(m: string, r: string, p: string, c: string)
    ensures AD(Message(m, r, p, c)) ==
            Object([("app", "lumo")] + ([("conversationId", c)] + ([("id", m)] +
                   ((if p != "" then [("parentId", p)] else []) + ([("role", r)] + [("type", "message")])))))
  {
    var more := (if p != "" then [("parentId", p)] else []) + ([("role", r)] + [("type", "message")]);
    Layout(Message(m, r, p, c));
    Words();
    MessageText(p, r);
    TailCons("id", m, more);
    ObjectText("conversationId", c, [("id", m)] + more);
  }

  /** The keys need no escaping and stand in ascending order; their first letters decide. */
  predicate KeysAscend(ms: seq<Member>) {
    && (forall k | 0 <= k < |ms| :: ms[k].0 != "" && Plain(ms[k].0))
    && forall i, j | 0 <= i < j < |ms| :: ms[i].0[0] < ms[j].0[0]
  }

  lemma ObjectIsRead(ms: seq<Member>)
    requires ms != [] && KeysAscend(ms)
    ensures ReadObject(Object(ms)) == Some(ms)
  {
    TailIsRead(ms);
    assert Object(ms)[1..] == Tail(ms)[1..];
  }

  lemma SpaceKeys(s: string)
    ensures KeysAscend(Members(Space(s)))
  {
  }

  lemma ConversationKeys(c: string, s: string)
    ensures KeysAscend(Members(Conversation(c, s)))
  {
  }

  lemma MessageKeys(m: string, r: string, p: string, c: string)
    ensures KeysAscend(Members(Message(m, r, p, c)))
  {
    if p == "" {
      RootKeys(m, r, c);
      assert Members(Message(m, r, p, c)) == [("app", "lumo"), ("conversationId", c), ("id", m), ("role", r), ("type", "message")];
    } else {
      ReplyKeys(m, r, p, c);
      assert Members(Message(m, r, p, c)) ==
        [("app", "lumo"), ("conversationId", c), ("id", m), ("parentId", p), ("role", r), ("type", "message")];
    }
  }

  lemma RootKeys(m: string, r: string, c: string)
    ensures KeysAscend([("app", "lumo"), ("conversationId", c), ("id", m), ("role", r), ("type", "message")])
  {
  }

  lemma ReplyKeys(m: string, r: string, p: string, c: string)
    ensures KeysAscend([("app", "lumo"), ("conversationId", c), ("id", m), ("parentId", p), ("role", r), ("type", "message")])
  {
  }

  /** Every associated-data string is the object of the subject's members, with the keys in
      ascending order, and it reads back to exactly those members. */
  lemma ADIsObject(x: Subject)
    ensures AD(x) == Object(Members(x)) && KeysAscend(Members(x))
    ensures ReadObject(AD(x)) == Some(Members(x))
  {
    match x {
      case Space(s) => SpaceKeys(s); SpaceText(s);
      case Conversation(c, s) => ConversationKeys(c, s); ConversationText(c, s);
      case Message(m, r, p, c) => MessageKeys(m, r, p, c); MessageAll(m, r, p, c);
    }
    ObjectIsRead(Members(x));
  }

  lemma SpaceText(s: string)
    ensures AD(Space(s)) == Object(Members(Space(s)))
  {
    SpaceObject(s);
    assert Members(Space(s)) == [("app", "lumo")] + ([("id", s)] + [("type", "space")]);
  }

  lemma ConversationText(c: string, s: string)
    ensures AD(Conversation(c, s)) == Object(Members(Conversation(c, s)))
  {
    ConversationObject(c, s);
    assert Members(Conversation(c, s)) == [("app", "lumo")] + ([("id", c)] + ([("spaceId", s)] + [("type", "conversation")]));
  }

  lemma MessageAll(m: string, r: string, p: string, c: string)
    ensures AD(Message(m, r, p, c)) == Object(Members(Message(m, r, p, c)))
  {
    MessageObject(m, r, p, c);
    assert Members(Message(m, r, p, c)) == [("app", "lumo")] + ([("conversationId", c)] + ([("id", m)] +
           ((if p != "" then [("parentId", p)] else []) + ([("role", r)] + [("type", "message")]))));
  }
}
