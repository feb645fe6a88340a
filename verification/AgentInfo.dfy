/** The canonical JSON text of an agent info (`agent-info-validator.ts`), which is what gets signed. Its partner is a
    parser with the string syntax of section 7 of RFC 8259. */
module AgentInfo {
  import opened Decimals
  import opened Wrappers

  /** UTF-16 code units: JavaScript strings may hold lone surrogates. */
  type Unit = u: int | 0 <= u < 0x1_0000
  type Text = seq<Unit>
  type U32 = n: int | 0 <= n < 0x1_0000_0000

  datatype AgentInfoFields = AgentInfoFields(
    agent: Text, space: Text, createdAt: Text, expiresAt: Text, isTombstone: bool, url: Option<Text>,
    storageArc: Option<(U32, U32)>)

  function Ascii(s: string): (t: Text)
    requires forall i :: 0 <= i < |s| ==> s[i] < '\U{80}'
    ensures |t| == |s| && forall i :: 0 <= i < |s| ==> t[i] == s[i] as int
  {
    seq(|s|, i requires 0 <= i < |s| => s[i] as int)
  }

  const AGENT := Ascii("\"agent\":")
  const SPACE := Ascii("\"space\":")
  const CREATED_AT := Ascii("\"createdAt\":")
  const EXPIRES_AT := Ascii("\"expiresAt\":")
  const IS_TOMBSTONE := Ascii("\"isTombstone\":")
  const URL := Ascii("\"url\":")
  const STORAGE_ARC := Ascii("\"storageArc\":")
  const NULL := Ascii("null")
  const TRUE := Ascii("true")
  const FALSE := Ascii("false")
  const OPEN_BRACE := Ascii("{")
  const CLOSE_BRACE := Ascii("}")
  const OPEN_BRACKET := Ascii("[")
  const CLOSE_BRACKET := Ascii("]")

  const QUOTE: Unit := 0x22
  const BACKSLASH: Unit := 0x5c
  const LOWER_U: Unit := 0x75
  const COMMA: Unit := 0x2c

  // ---------------------------------------------------------------- printing

  predicate IsLead(u: Unit) {
    0xd800 <= u < 0xdc00
  }

  predicate IsTrail(u: Unit) {
    0xdc00 <= u < 0xe000
  }

  /** The second unit of a two-unit escape. */
  function ShortEscape(u: Unit): Option<Unit> {
    match u
    case 0x08 => Some(0x62)
    case 0x09 => Some(0x74)
    case 0x0a => Some(0x6e)
    case 0x0c => Some(0x66)
    case 0x0d => Some(0x72)
    case 0x22 => Some(0x22)
    case 0x5c => Some(0x5c)
    case _ => None
  }

  function HexDigit(d: int): Unit
    requires 0 <= d < 16
  {
    if d < 10 then 0x30 + d else 0x61 + (d - 10)
  }

  function FourDigits(u: Unit): Text {
    [HexDigit(u / 16 / 16 / 16), HexDigit(u / 16 / 16 % 16), HexDigit(u / 16 % 16), HexDigit(u % 16)]
  }

  function UnicodeEscape(u: Unit): Text {
    [BACKSLASH, LOWER_U] + FourDigits(u)
  }

  function EscapedUnit(u: Unit): Text {
    if ShortEscape(u).Some? then [BACKSLASH, ShortEscape(u).value]
    else if u < 0x20 || IsLead(u) || IsTrail(u) then UnicodeEscape(u)
    else [u]
  }

  /** The inside of `JSON.stringify` of a string: surrogates that form a pair are left alone. */
  function Escaped(s: Text): Text {
    if s == [] then []
    else if |s| > 1 && IsLead(s[0]) && IsTrail(s[1]) then [s[0], s[1]] + Escaped(s[2..])
    else EscapedUnit(s[0]) + Escaped(s[1..])
  }

  function Quoted(s: Text): Text {
    [QUOTE] + Escaped(s) + [QUOTE]
  }

  function Printed(n: nat): Text {
    Ascii(Digits(n))
  }

  function UrlPart(url: Option<Text>): Text {
    URL + if url.None? then NULL else Quoted(url.value)
  }

  function ArcPart(arc: Option<(U32, U32)>): Text {
    STORAGE_ARC
    + if arc.None? then NULL else OPEN_BRACKET + Printed(arc.value.0) + [COMMA] + Printed(arc.value.1) + CLOSE_BRACKET
  }

  function TombstonePart(isTombstone: bool): Text {
    IS_TOMBSTONE + if isTombstone then TRUE else FALSE
  }

  function Parts(info: AgentInfoFields): seq<Text> {
    [AGENT + Quoted(info.agent), SPACE + Quoted(info.space),
     CREATED_AT + Quoted(info.createdAt), EXPIRES_AT + Quoted(info.expiresAt),
     TombstonePart(info.isTombstone), UrlPart(info.url), ArcPart(info.storageArc)]
  }

  /** `parts.join(",")`. */
  function Joined(parts: seq<Text>): Text {
    if parts == [] then []
    else if |parts| == 1 then parts[0]
    else parts[0] + [COMMA] + Joined(parts[1..])
  }

  function Canonical(info: AgentInfoFields): Text {
    OPEN_BRACE + Joined(Parts(info)) + CLOSE_BRACE
  }

  /** `serializeAgentInfoCanonical`. */
  method SerializeAgentInfoCanonical(info: AgentInfoFields) returns (text: Text)
    ensures text == Canonical(info)
  {
    var parts: seq<Text> := [];
    parts := parts + [AGENT + Quoted(info.agent)];
    parts := parts + [SPACE + Quoted(info.space)];
    parts := parts + [CREATED_AT + Quoted(info.createdAt)];
    parts := parts + [EXPIRES_AT + Quoted(info.expiresAt)];
    parts := parts + [TombstonePart(info.isTombstone)];
    if info.url.None? {
      parts := parts + [URL + NULL];
    } else {
      parts := parts + [URL + Quoted(info.url.value)];
    }
    parts := parts + [ArcPart(info.storageArc)];
    assert parts == Parts(info);
    text := OPEN_BRACE + Joined(parts) + CLOSE_BRACE;
  }

  // ---------------------------------------------------------------- parsing

  datatype Parsed<T> = Parsed(value: T, rest: Text) | Failed

  function Expect(literal: Text, t: Text): Parsed<()> {
    if literal <= t then Parsed((), t[|literal|..]) else Failed
  }

  function HexValue(u: Unit): Option<int> {
    if 0x30 <= u <= 0x39 then Some(u - 0x30)
    else if 0x61 <= u <= 0x66 then Some(u - 0x61 + 10)
    else if 0x41 <= u <= 0x46 then Some(u - 0x41 + 10)
    else None
  }

  function FourHex(t: Text): Option<Unit>
    requires |t| >= 4
  {
    var a, b, c, d := HexValue(t[0]), HexValue(t[1]), HexValue(t[2]), HexValue(t[3]);
    if a.None? || b.None? || c.None? || d.None? then None
    else
      var u := a.value * 4096 + b.value * 256 + c.value * 16 + d.value;
      if 0 <= u < 0x1_0000 then Some(u) else None
  }

  function Unescaped(second: Unit): Option<Unit> {
    match second
    case 0x62 => Some(0x08)
    case 0x74 => Some(0x09)
    case 0x6e => Some(0x0a)
    case 0x66 => Some(0x0c)
    case 0x72 => Some(0x0d)
    case 0x22 => Some(0x22)
    case 0x5c => Some(0x5c)
    case 0x2f => Some(0x2f)
    case _ => None
  }

  /** The first character of the inside of a string, as one unit. */
  function ParseUnit(t: Text): (p: Parsed<Unit>)
    requires t != []
    ensures p.Parsed? ==> |p.rest| < |t|
  {
    if t[0] < 0x20 || t[0] == QUOTE then Failed
    else if t[0] != BACKSLASH then Parsed(t[0], t[1..])
    else if |t| < 2 then Failed
    else if t[1] == LOWER_U then
      if |t| < 6 || FourHex(t[2..]).None? then Failed else Parsed(FourHex(t[2..]).value, t[6..])
    else if Unescaped(t[1]).None? then Failed
    else Parsed(Unescaped(t[1]).value, t[2..])
  }

  /** The inside of a string, up to and including the closing quote. */
  function ParseInside(t: Text): Parsed<Text>
    decreases |t|
  {
    if t == [] then Failed
    else if t[0] == QUOTE then Parsed([], t[1..])
    else
      match ParseUnit(t)
      case Failed => Failed
      case Parsed(u, rest) =>
        match ParseInside(rest)
        case Failed => Failed
        case Parsed(s, after) => Parsed([u] + s, after)
  }

  function ParseQuoted(t: Text): Parsed<Text> {
    if t != [] && t[0] == QUOTE then ParseInside(t[1..]) else Failed
  }

  predicate IsDigit(u: Unit) {
    0x30 <= u <= 0x39
  }

  function DigitCount(t: Text): (n: nat)
    ensures n <= |t| && forall i :: 0 <= i < n ==> IsDigit(t[i])
  {
    if t == [] || !IsDigit(t[0]) then 0 else 1 + DigitCount(t[1..])
  }

  function Character(u: Unit): char
    requires IsDigit(u)
  {
    var d: int := u;
    Digit(d - 0x30)
  }

  function Characters(t: Text): (s: string)
    requires forall i :: 0 <= i < |t| ==> IsDigit(t[i])
    ensures |s| == |t|
  {
    seq(|t|, i requires 0 <= i < |t| => Character(t[i]))
  }

  function ParseNumber(t: Text): Parsed<nat> {
    var n := DigitCount(t);
    if n == 0 then Failed else Parsed(Value(Characters(t[..n])), t[n..])
  }

  // ---------------------------------------------------------------- strings come back

  lemma HexComesBack(d: int)
    requires 0 <= d < 16
    ensures HexValue(HexDigit(d)) == Some(d)
  {
  }

  lemma HexDigitsAddUp(u: Unit)
    ensures u == u / 16 / 16 / 16 * 4096 + u / 16 / 16 % 16 * 256 + u / 16 % 16 * 16 + u % 16
  {
    var a := u / 16;
    var b := a / 16;
    assert u == a * 16 + u % 16 && a == b * 16 + a % 16 && b == b / 16 * 16 + b % 16;
  }

  lemma FourHexComesBack(u: Unit, rest: Text)
    ensures FourHex(FourDigits(u) + rest) == Some(u)
  {
    HexComesBack(u / 16 / 16 / 16);
    HexComesBack(u / 16 / 16 % 16);
    HexComesBack(u / 16 % 16);
    HexComesBack(u % 16);
    HexDigitsAddUp(u);
  }

  lemma UnicodeEscapeComesBack(u: Unit, rest: Text)
    ensures ParseUnit(UnicodeEscape(u) + rest) == Parsed(u, rest)
  {
    var t := UnicodeEscape(u) + rest;
    FourHexComesBack(u, rest);
    assert t[2..] == FourDigits(u) + rest;
    assert t[6..] == rest;
  }

  lemma ShortEscapeComesBack(u: Unit)
    ensures ShortEscape(u).Some? ==> Unescaped(ShortEscape(u).value) == Some(u) && ShortEscape(u).value != LOWER_U
    ensures ShortEscape(u).None? ==> u != QUOTE && u != BACKSLASH
  {
  }

  lemma UnitComesBack(u: Unit, rest: Text)
    ensures ParseUnit(EscapedUnit(u) + rest) == Parsed(u, rest) && EscapedUnit(u)[0] != QUOTE
  {
    ShortEscapeComesBack(u);
    if ShortEscape(u).Some? {
      assert (EscapedUnit(u) + rest)[2..] == rest;
    } else if u < 0x20 || IsLead(u) || IsTrail(u) {
      UnicodeEscapeComesBack(u, rest);
    } else {
      assert (EscapedUnit(u) + rest)[1..] == rest;
    }
  }

  /** One more unit before what parses already. */
  lemma InsideStep(u: Unit, head: Text, after: Text, s: Text, rest: Text)
    requires head != [] && head[0] != QUOTE && ParseUnit(head + after) == Parsed(u, after)
    requires ParseInside(after) == Parsed(s, rest)
    ensures ParseInside(head + after) == Parsed([u] + s, rest)
  {
  }

  lemma SurrogateComesBack(u: Unit, rest: Text)
    requires IsLead(u) || IsTrail(u)
    ensures ParseUnit([u] + rest) == Parsed(u, rest)
  {
    assert ([u] + rest)[1..] == rest;
  }

  lemma {:induction false} InsideComesBack(s: Text, rest: Text)
    ensures ParseInside(Escaped(s) + [QUOTE] + rest) == Parsed(s, rest)
    decreases |s|
  {
    if s == [] {
      assert Escaped(s) + [QUOTE] + rest == [QUOTE] + rest;
      assert ([QUOTE] + rest)[1..] == rest;
    } else if |s| > 1 && IsLead(s[0]) && IsTrail(s[1]) {
      InsideComesBack(s[2..], rest);
      PairStep(s, rest);
    } else {
      InsideComesBack(s[1..], rest);
      UnitStep(s, rest);
    }
  }

  lemma PairStep(s: Text, rest: Text)
    requires |s| > 1 && IsLead(s[0]) && IsTrail(s[1])
    requires ParseInside(Escaped(s[2..]) + [QUOTE] + rest) == Parsed(s[2..], rest)
    ensures ParseInside(Escaped(s) + [QUOTE] + rest) == Parsed(s, rest)
  {
    var after := Escaped(s[2..]) + [QUOTE] + rest;
    SurrogateComesBack(s[1], after);
    InsideStep(s[1], [s[1]], after, s[2..], rest);
    SurrogateComesBack(s[0], [s[1]] + after);
    InsideStep(s[0], [s[0]], [s[1]] + after, [s[1]] + s[2..], rest);
    assert Escaped(s) + [QUOTE] + rest == [s[0]] + ([s[1]] + after);
    assert s == [s[0]] + ([s[1]] + s[2..]);
  }

  lemma UnitStep(s: Text, rest: Text)
    requires s != [] && !(|s| > 1 && IsLead(s[0]) && IsTrail(s[1]))
    requires ParseInside(Escaped(s[1..]) + [QUOTE] + rest) == Parsed(s[1..], rest)
    ensures ParseInside(Escaped(s) + [QUOTE] + rest) == Parsed(s, rest)
  {
    var after := Escaped(s[1..]) + [QUOTE] + rest;
    UnitComesBack(s[0], after);
    InsideStep(s[0], EscapedUnit(s[0]), after, s[1..], rest);
    Associates(EscapedUnit(s[0]), Escaped(s[1..]), [QUOTE], rest);
    assert Escaped(s) == EscapedUnit(s[0]) + Escaped(s[1..]);
    assert s == [s[0]] + s[1..];
  }

  lemma Associates(a: Text, b: Text, c: Text, d: Text)
    ensures a + b + c + d == a + (b + c + d)
  {
  }

  lemma QuotedComesBack(s: Text, rest: Text)
    ensures ParseQuoted(Quoted(s) + rest) == Parsed(s, rest)
  {
    InsideComesBack(s, rest);
    assert (Quoted(s) + rest)[1..] == Escaped(s) + [QUOTE] + rest;
  }

  lemma {:induction false} CountsDigits(t: Text, rest: Text)
    requires forall i :: 0 <= i < |t| ==> IsDigit(t[i])
    requires rest == [] || !IsDigit(rest[0])
    ensures DigitCount(t + rest) == |t|
  {
    if t == [] {
      assert t + rest == rest;
    } else {
      assert (t + rest)[1..] == t[1..] + rest;
      CountsDigits(t[1..], rest);
    }
  }

  lemma NumberComesBack(n: nat, rest: Text)
    requires rest == [] || !IsDigit(rest[0])
    ensures ParseNumber(Printed(n) + rest) == Parsed(n, rest)
  {
    var t := Printed(n);
    CountsDigits(t, rest);
    assert (t + rest)[..|t|] == t && (t + rest)[|t|..] == rest;
    assert Characters(t) == Digits(n);
    ValueOfDigits(n);
  }

  // ---------------------------------------------------------------- the whole text comes back

  /** `p`, and then this text. */
  function Then<T>(p: Parsed<T>, literal: Text): Parsed<T> {
    match p
    case Failed => Failed
    case Parsed(value, rest) =>
      if Expect(literal, rest).Failed? then Failed else Parsed(value, Expect(literal, rest).rest)
  }

  /** A member whose value is a string. */
  function ParseMember(name: Text, t: Text): Parsed<Text> {
    if Expect(name, t).Failed? then Failed else ParseQuoted(Expect(name, t).rest)
  }

  function ParseTombstone(t: Text): Parsed<bool> {
    match Expect(IS_TOMBSTONE, t)
    case Failed => Failed
    case Parsed(_, rest) =>
      if TRUE <= rest then Parsed(true, rest[4..])
      else if FALSE <= rest then Parsed(false, rest[5..])
      else Failed
  }

  function ParseUrl(t: Text): Parsed<Option<Text>> {
    match Expect(URL, t)
    case Failed => Failed
    case Parsed(_, rest) =>
      if NULL <= rest then Parsed(None, rest[4..])
      else
        match ParseQuoted(rest)
        case Failed => Failed
        case Parsed(url, after) => Parsed(Some(url), after)
  }

  function ParsePair(t: Text): Parsed<(U32, U32)> {
    match Expect(OPEN_BRACKET, t)
    case Failed => Failed
    case Parsed(_, inside) =>
      match Then(ParseNumber(inside), [COMMA])
      case Failed => Failed
      case Parsed(first, after) =>
        match Then(ParseNumber(after), CLOSE_BRACKET)
        case Failed => Failed
        case Parsed(second, rest) =>
          if first < 0x1_0000_0000 && second < 0x1_0000_0000 then Parsed((first, second), rest) else Failed
  }

  function ParseArc(t: Text): Parsed<Option<(U32, U32)>> {
    match Expect(STORAGE_ARC, t)
    case Failed => Failed
    case Parsed(_, rest) =>
      if NULL <= rest then Parsed(None, rest[4..])
      else
        match ParsePair(rest)
        case Failed => Failed
        case Parsed(pair, after) => Parsed(Some(pair), after)
  }

  function ParseInfo(t: Text): Option<AgentInfoFields> {
    var start := Expect(OPEN_BRACE, t);
    if start.Failed? then None
    else
      var agent := Then(ParseMember(AGENT, start.rest), [COMMA]);
      if agent.Failed? then None
      else
        var space := Then(ParseMember(SPACE, agent.rest), [COMMA]);
        if space.Failed? then None
        else
          var createdAt := Then(ParseMember(CREATED_AT, space.rest), [COMMA]);
          if createdAt.Failed? then None
          else
            var expiresAt := Then(ParseMember(EXPIRES_AT, createdAt.rest), [COMMA]);
            if expiresAt.Failed? then None
            else
              var isTombstone := Then(ParseTombstone(expiresAt.rest), [COMMA]);
              if isTombstone.Failed? then None
              else
                var url := Then(ParseUrl(isTombstone.rest), [COMMA]);
                if url.Failed? then None
                else
                  var arc := Then(ParseArc(url.rest), CLOSE_BRACE);
                  if arc.Failed? || arc.rest != [] then None
                  else
                    Some(AgentInfoFields(agent.value, space.value, createdAt.value, expiresAt.value, isTombstone.value,
                                         url.value, arc.value))
  }

  lemma ExpectedIsThere(literal: Text, rest: Text)
    ensures Expect(literal, literal + rest) == Parsed((), rest)
  {
    assert (literal + rest)[|literal|..] == rest;
  }

  lemma MemberComesBack(name: Text, s: Text, rest: Text)
    ensures Then(ParseMember(name, name + Quoted(s) + ([COMMA] + rest)), [COMMA]) == Parsed(s, rest)
  {
    var after := [COMMA] + rest;
    assert name + Quoted(s) + after == name + (Quoted(s) + after);
    ExpectedIsThere(name, Quoted(s) + after);
    QuotedComesBack(s, after);
    ExpectedIsThere([COMMA], rest);
  }

  lemma TombstoneComesBack(isTombstone: bool, rest: Text)
    ensures Then(ParseTombstone(TombstonePart(isTombstone) + ([COMMA] + rest)), [COMMA]) == Parsed(isTombstone, rest)
  {
    var name, word, after := IS_TOMBSTONE, (if isTombstone then TRUE else FALSE), [COMMA] + rest;
    assert TombstonePart(isTombstone) + after == name + (word + after);
    ExpectedIsThere(name, word + after);
    assert (word + after)[0] == word[0];
    ExpectedIsThere(word, after);
    ExpectedIsThere([COMMA], rest);
  }

  lemma UrlComesBack(url: Option<Text>, rest: Text)
    ensures Then(ParseUrl(UrlPart(url) + ([COMMA] + rest)), [COMMA]) == Parsed(url, rest)
  {
    var name, after := URL, [COMMA] + rest;
    var word := if url.None? then NULL else Quoted(url.value);
    assert UrlPart(url) + after == name + (word + after);
    ExpectedIsThere(name, word + after);
    assert (word + after)[0] == word[0];
    if url.None? {
      ExpectedIsThere(word, after);
    } else {
      QuotedComesBack(url.value, after);
    }
    ExpectedIsThere([COMMA], rest);
  }

  lemma NumberThen(n: nat, literal: Text, rest: Text)
    requires literal != [] && !IsDigit(literal[0])
    ensures Then(ParseNumber(Printed(n) + (literal + rest)), literal) == Parsed(n, rest)
  {
    NumberComesBack(n, literal + rest);
    ExpectedIsThere(literal, rest);
  }

  lemma PairComesBack(a: U32, b: U32, rest: Text)
    ensures ParsePair(OPEN_BRACKET + Printed(a) + [COMMA] + Printed(b) + CLOSE_BRACKET + rest) == Parsed((a, b), rest)
  {
    var second := Printed(b) + (CLOSE_BRACKET + rest);
    var first := Printed(a) + ([COMMA] + second);
    assert OPEN_BRACKET + Printed(a) + [COMMA] + Printed(b) + CLOSE_BRACKET + rest == OPEN_BRACKET + first;
    ExpectedIsThere(OPEN_BRACKET, first);
    NumberThen(a, [COMMA], second);
    NumberThen(b, CLOSE_BRACKET, rest);
  }

  lemma ArcComesBack(arc: Option<(U32, U32)>)
    ensures Then(ParseArc(ArcPart(arc) + CLOSE_BRACE), CLOSE_BRACE) == Parsed(arc, [])
  {
    var name, after := STORAGE_ARC, CLOSE_BRACE;
    var word := if arc.None? then NULL
                else OPEN_BRACKET + Printed(arc.value.0) + [COMMA] + Printed(arc.value.1) + CLOSE_BRACKET;
    assert ArcPart(arc) + after == name + (word + after);
    ExpectedIsThere(name, word + after);
    assert (word + after)[0] == word[0];
    if arc.None? {
      ExpectedIsThere(word, after);
    } else {
      PairComesBack(arc.value.0, arc.value.1, after);
    }
    ExpectedIsThere(after, []);
    assert after + [] == after;
  }

  /** The rest of the text from a part on. */
  function From(info: AgentInfoFields, k: nat): Text
    requires k < 7
  {
    Joined(Parts(info)[k..]) + CLOSE_BRACE
  }

  lemma PartThenRest(info: AgentInfoFields, k: nat)
    requires k < 6
    ensures From(info, k) == Parts(info)[k] + ([COMMA] + From(info, k + 1))
  {
    assert Parts(info)[k..][1..] == Parts(info)[k + 1..];
  }

  lemma MemberThenRest(info: AgentInfoFields, k: nat, name: Text, value: Text)
    requires k < 6 && Parts(info)[k] == name + Quoted(value)
    ensures Then(ParseMember(name, From(info, k)), [COMMA]) == Parsed(value, From(info, k + 1))
  {
    PartThenRest(info, k);
    MemberComesBack(name, value, From(info, k + 1));
  }

  lemma HashesComeBack(info: AgentInfoFields)
    ensures Then(ParseMember(AGENT, From(info, 0)), [COMMA]) == Parsed(info.agent, From(info, 1))
    ensures Then(ParseMember(SPACE, From(info, 1)), [COMMA]) == Parsed(info.space, From(info, 2))
  {
    MemberThenRest(info, 0, AGENT, info.agent);
    MemberThenRest(info, 1, SPACE, info.space);
  }

  lemma TimesComeBack(info: AgentInfoFields)
    ensures Then(ParseMember(CREATED_AT, From(info, 2)), [COMMA]) == Parsed(info.createdAt, From(info, 3))
    ensures Then(ParseMember(EXPIRES_AT, From(info, 3)), [COMMA]) == Parsed(info.expiresAt, From(info, 4))
  {
    MemberThenRest(info, 2, CREATED_AT, info.createdAt);
    MemberThenRest(info, 3, EXPIRES_AT, info.expiresAt);
  }

  lemma OthersComeBack(info: AgentInfoFields)
    ensures Then(ParseTombstone(From(info, 4)), [COMMA]) == Parsed(info.isTombstone, From(info, 5))
    ensures Then(ParseUrl(From(info, 5)), [COMMA]) == Parsed(info.url, From(info, 6))
    ensures Then(ParseArc(From(info, 6)), CLOSE_BRACE) == Parsed(info.storageArc, [])
  {
    PartThenRest(info, 4);
    TombstoneComesBack(info.isTombstone, From(info, 5));
    PartThenRest(info, 5);
    UrlComesBack(info.url, From(info, 6));
    assert Parts(info)[6..] == [ArcPart(info.storageArc)];
    ArcComesBack(info.storageArc);
  }

  /** Every agent info can be read off its canonical text. */
  lemma CanonicalComesBack(info: AgentInfoFields)
    ensures ParseInfo(Canonical(info)) == Some(info)
  {
    assert Canonical(info) == OPEN_BRACE + From(info, 0) by {
      assert Parts(info)[0..] == Parts(info);
    }
    ExpectedIsThere(OPEN_BRACE, From(info, 0));
    HashesComeBack(info);
    TimesComeBack(info);
    OthersComeBack(info);
  }

  /** So a signature under the text is a signature under one agent info only. */
  lemma CanonicalIsInjective(a: AgentInfoFields, b: AgentInfoFields)
    ensures Canonical(a) == Canonical(b) ==> a == b
  {
    CanonicalComesBack(a);
    CanonicalComesBack(b);
  }

  // ---------------------------------------------------------------- no other spelling

  predicate IsUpperHex(u: Unit) {
    0x41 <= u <= 0x46
  }

  lemma HexIsUnique(u: Unit, d: int)
    requires HexValue(u) == Some(d) && !IsUpperHex(u)
    ensures 0 <= d < 16 && HexDigit(d) == u
  {
  }

  lemma FourDigitsAreUnique(t: Text, u: Unit)
    requires |t| == 4 && FourHex(t) == Some(u) && forall i :: 0 <= i < 4 ==> !IsUpperHex(t[i])
    ensures t == FourDigits(u)
  {
    var a, b, c, d := HexValue(t[0]).value, HexValue(t[1]).value, HexValue(t[2]).value, HexValue(t[3]).value;
    HexIsUnique(t[0], a);
    HexIsUnique(t[1], b);
    HexIsUnique(t[2], c);
    HexIsUnique(t[3], d);
    assert u == ((a * 16 + b) * 16 + c) * 16 + d;
    assert u / 16 == (a * 16 + b) * 16 + c && u / 16 / 16 == a * 16 + b && u / 16 / 16 / 16 == a;
  }

  /** A unit is written in the shortest way that a parser reads, with lower-case digits, and there is no other such way
      (a lone surrogate, which could stand for itself, is always written as an escape). */
  lemma EscapesAreShortest(u: Unit, t: Text)
    requires t != [] && ParseUnit(t) == Parsed(u, [])
    requires !(IsLead(u) || IsTrail(u)) || t[0] == BACKSLASH
    ensures |EscapedUnit(u)| <= |t|
    ensures |EscapedUnit(u)| == |t| && (forall i :: 2 <= i < |t| ==> !IsUpperHex(t[i])) ==> EscapedUnit(u) == t
  {
    if t[0] == BACKSLASH && t[1] == LOWER_U {
      assert t[6..] == [] && |t| == 6;
      if forall i :: 2 <= i < |t| ==> !IsUpperHex(t[i]) {
        assert FourHex(t[2..]) == Some(u);
        FourDigitsAreUnique(t[2..], u);
        assert t == [BACKSLASH, LOWER_U] + t[2..];
      }
    } else if t[0] == BACKSLASH {
      assert t[2..] == [] && |t| == 2;
      assert t == [BACKSLASH, t[1]];
    } else {
      assert t[1..] == [] && t == [u];
    }
  }
}
