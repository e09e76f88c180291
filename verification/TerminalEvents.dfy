/** Events from a terminal to its child process (`Event` in `panda-abi/src/terminal.rs`). */
module TerminalEvents {
  import opened Common
  import opened Encoding
  import opened TerminalCodec

  /** A character is its bytes in UTF-8. */
  datatype InputValue = Text(s: Bytes) | Char(c: Bytes) | Flag(b: bool) | Choice(index: nat)

  datatype QueryAnswer =
    | Size(cols: nat, rows: nat)
    | Capabilities(colours: nat, images: bool, hyperlinks: bool, unicode: bool)
    | CursorPosition(row: nat, col: nat)

  datatype Event =
    | Input(id: nat, value: Option<InputValue>)
    | Key(code: nat, shift: bool, ctrl: bool, alt: bool, state: nat)
    | Resize(width: nat, height: nat)
    | Signal(signal: nat)
    | Answer(answer: QueryAnswer)

  const COLOUR_LEVELS: nat := 4
  const SIGNALS: nat := 3

  predicate OneChar(c: Bytes) {
    c != [] && CharLength(c) == Some(|c|)
  }

  predicate FitsText(s: Bytes) {
    IsUtf8(s) && |s| < 0x10000
  }

  predicate FitsInputValue(v: InputValue) {
    match v
    case Text(s) => FitsText(s)
    case Char(c) => OneChar(c)
    case Flag(_) => true
    case Choice(i) => i < 0x1_0000_0000
  }

  predicate FitsAnswer(a: QueryAnswer) {
    match a
    case Size(c, r) => c < 0x10000 && r < 0x10000
    case Capabilities(colours, _, _, _) => colours < COLOUR_LEVELS
    case CursorPosition(r, c) => r < 0x10000 && c < 0x10000
  }

  predicate FitsEvent(e: Event) {
    match e
    case Input(id, v) => id < 0x1_0000_0000 && (v.Some? ==> FitsInputValue(v.value))
    case Key(code, _, _, _, state) => code < 0x10000 && state < 256
    case Resize(w, h) => w < 0x10000 && h < 0x10000
    case Signal(s) => s < SIGNALS
    case Answer(a) => FitsAnswer(a)
  }

  // ---------------------------------------------------------------------------
  // Parts
  // ---------------------------------------------------------------------------

  function FlagByte(b: bool): Byte {
    if b then 1 else 0
  }

  function EncodeInputValue(v: InputValue): Bytes {
    match v
    case Text(s) => [0] + EncodeString(s)
    case Char(c) => [1] + EncodeString(c)
    case Flag(b) => [2, FlagByte(b)]
    case Choice(i) => [3] + LittleEndian(i, 4)
  }

  function FirstChar(s: Bytes): Option<Bytes> {
    if s == [] then None
    else match CharLength(s)
         case None => None
         case Some(n) => Some(s[..n])
  }

  function ParseInputValue(bs: Bytes): Parsed<InputValue> {
    if bs == [] then Fail(Truncated)
    else
      match bs[0]
      case 0 => (match ParseString(bs[1..]) case Fail(e) => Fail(e) case Done(s, rest) => Done(Text(s), rest))
      case 1 =>
        (match ParseString(bs[1..])
         case Fail(e) => Fail(e)
         case Done(s, rest) => if FirstChar(s).Some? then Done(Char(FirstChar(s).value), rest) else Fail(InvalidValue))
      case 2 => if |bs| < 2 then Fail(Truncated) else Done(Flag(bs[1] != 0), bs[2..])
      case 3 => (match ParseNumber(bs[1..], 4) case Fail(e) => Fail(e) case Done(n, rest) => Done(Choice(n), rest))
      case _ => Fail(InvalidValue)
  }

  lemma OneCharIsText(c: Bytes)
    requires OneChar(c)
    ensures IsUtf8(c) && |c| <= 4 && FirstChar(c) == Some(c)
  {
    assert c[..|c|] == c && c[|c|..] == [];
  }

  lemma InputValueRoundTrip(v: InputValue, rest: Bytes)
    requires FitsInputValue(v)
    ensures ParseInputValue(EncodeInputValue(v) + rest) == Done(v, rest)
  {
    hide LittleEndian, ParseNumber, EncodeString, ParseString, IsUtf8, CharLength, FirstChar, OneChar;
    Limits();
    var bs := EncodeInputValue(v) + rest;
    match v {
      case Text(s) =>
        assert bs[1..] == EncodeString(s) + rest;
        StringFits(s, rest);
      case Char(c) =>
        assert bs[1..] == EncodeString(c) + rest;
        OneCharIsText(c);
        StringFits(c, rest);
      case Flag(_) => assert bs[2..] == rest;
      case Choice(i) =>
        assert bs[1..] == LittleEndian(i, 4) + rest;
        NumberFits(i, 4, rest);
    }
  }

  /** Two numbers of two bytes. */
  function ParseTwo(bs: Bytes): Parsed<(nat, nat)> {
    match ParseNumber(bs, 2)
    case Fail(e) => Fail(e)
    case Done(a, rest) =>
      match ParseNumber(rest, 2)
      case Fail(e) => Fail(e)
      case Done(b, rest') => Done((a, b), rest')
  }

  lemma TwoRoundTrip(a: nat, b: nat, rest: Bytes)
    requires a < 0x10000 && b < 0x10000
    ensures ParseTwo(LittleEndian(a, 2) + LittleEndian(b, 2) + rest) == Done((a, b), rest)
  {
    hide LittleEndian, ParseNumber;
    Limits();
    assert LittleEndian(a, 2) + LittleEndian(b, 2) + rest == LittleEndian(a, 2) + (LittleEndian(b, 2) + rest);
    NumberFits(a, 2, LittleEndian(b, 2) + rest);
    NumberFits(b, 2, rest);
  }

  function EncodeAnswer(a: QueryAnswer): Bytes {
    match a
    case Size(c, r) => [0] + (LittleEndian(c, 2) + LittleEndian(r, 2))
    case Capabilities(colours, i, h, u) => [1, colours % 256, FlagByte(i), FlagByte(h), FlagByte(u)]
    case CursorPosition(r, c) => [2] + (LittleEndian(r, 2) + LittleEndian(c, 2))
  }

  function ParseCapabilities(bs: Bytes): Parsed<QueryAnswer> {
    match ParseEnum(bs, COLOUR_LEVELS)
    case Fail(e) => Fail(e)
    case Done(colours, rest) =>
      if |rest| < 3 then Fail(Truncated)
      else Done(Capabilities(colours, rest[0] != 0, rest[1] != 0, rest[2] != 0), rest[3..])
  }

  function ParseAnswer(bs: Bytes): Parsed<QueryAnswer> {
    if bs == [] then Fail(Truncated)
    else
      match bs[0]
      case 0 => (match ParseTwo(bs[1..]) case Fail(e) => Fail(e) case Done(p, rest) => Done(Size(p.0, p.1), rest))
      case 1 => ParseCapabilities(bs[1..])
      case 2 =>
        (match ParseTwo(bs[1..])
         case Fail(e) => Fail(e)
         case Done(p, rest) => Done(CursorPosition(p.0, p.1), rest))
      case _ => Fail(InvalidValue)
  }

  lemma AnswerRoundTrip(a: QueryAnswer, rest: Bytes)
    requires FitsAnswer(a)
    ensures ParseAnswer(EncodeAnswer(a) + rest) == Done(a, rest)
  {
    hide LittleEndian, ParseTwo;
    var bs := EncodeAnswer(a) + rest;
    match a {
      case Size(c, r) =>
        assert bs[1..] == LittleEndian(c, 2) + LittleEndian(r, 2) + rest;
        TwoRoundTrip(c, r, rest);
      case Capabilities(colours, i, h, u) =>
        assert bs[1..][1..][3..] == rest;
      case CursorPosition(r, c) =>
        assert bs[1..] == LittleEndian(r, 2) + LittleEndian(c, 2) + rest;
        TwoRoundTrip(r, c, rest);
    }
  }

  function Modifiers(shift: bool, ctrl: bool, alt: bool): Byte {
    FlagByte(shift) + 2 * FlagByte(ctrl) + 4 * FlagByte(alt)
  }

  function ParseKey(bs: Bytes): Parsed<Event> {
    match ParseNumber(bs, 2)
    case Fail(e) => Fail(e)
    case Done(code, rest) =>
      if |rest| < 2 then Fail(Truncated)
      else Done(Key(code, rest[0] % 2 == 1, rest[0] / 2 % 2 == 1, rest[0] / 4 % 2 == 1, rest[1]), rest[2..])
  }

  lemma KeyRoundTrip(e: Event, rest: Bytes)
    requires e.Key? && FitsEvent(e)
    ensures ParseKey(EventContent(e) + rest) == Done(e, rest)
  {
    hide LittleEndian, ParseNumber;
    Limits();
    var tail := [Modifiers(e.shift, e.ctrl, e.alt), e.state] + rest;
    assert EventContent(e) + rest == LittleEndian(e.code, 2) + tail;
    NumberFits(e.code, 2, tail);
    assert tail[2..] == rest;
  }

  // ---------------------------------------------------------------------------
  // Events
  // ---------------------------------------------------------------------------

  function EventType(e: Event): nat {
    match e
    case Input(_, _) => 0x100
    case Key(_, _, _, _, _) => 0x101
    case Resize(_, _) => 0x102
    case Signal(_) => 0x103
    case Answer(_) => 0x104
  }

  function EncodeOptional(v: Option<InputValue>): Bytes {
    match v
    case None => [0]
    case Some(v) => [1] + EncodeInputValue(v)
  }

  function EventContent(e: Event): Bytes {
    match e
    case Input(id, v) => LittleEndian(id, 4) + EncodeOptional(v)
    case Key(code, shift, ctrl, alt, state) => LittleEndian(code, 2) + [Modifiers(shift, ctrl, alt), state % 256]
    case Resize(w, h) => LittleEndian(w, 2) + LittleEndian(h, 2)
    case Signal(s) => [s % 256]
    case Answer(a) => EncodeAnswer(a)
  }

  function EncodeEvent(e: Event): Bytes {
    LittleEndian(EventType(e), 2) + LittleEndian(|EventContent(e)|, 4) + EventContent(e)
  }

  function ParseInputEvent(bs: Bytes): Parsed<Event> {
    match ParseNumber(bs, 4)
    case Fail(e) => Fail(e)
    case Done(id, rest) =>
      if rest == [] then Fail(Truncated)
      else if rest[0] == 0 then Done(Input(id, None), rest[1..])
      else match ParseInputValue(rest[1..])
           case Fail(e) => Fail(e)
           case Done(v, rest') => Done(Input(id, Some(v)), rest')
  }

  function ParseEventContent(kind: nat, bs: Bytes): Parsed<Event> {
    match kind
    case 0x100 => ParseInputEvent(bs)
    case 0x101 => ParseKey(bs)
    case 0x102 => (match ParseTwo(bs) case Fail(e) => Fail(e) case Done(p, rest) => Done(Resize(p.0, p.1), rest))
    case 0x103 => (match ParseEnum(bs, SIGNALS) case Fail(e) => Fail(e) case Done(s, rest) => Done(Signal(s), rest))
    case 0x104 => (match ParseAnswer(bs) case Fail(e) => Fail(e) case Done(a, rest) => Done(Answer(a), rest))
    case _ => Fail(UnknownType)
  }

  function ParseEvent(bs: Bytes): Parsed<Event> {
    match ParseNumber(bs, 2)
    case Fail(e) => Fail(e)
    case Done(kind, rest) =>
      match ParseNumber(rest, 4)
      case Fail(e) => Fail(e)
      case Done(_, rest') => ParseEventContent(kind, rest')
  }

  lemma InputEventRoundTrip(id: nat, v: Option<InputValue>, rest: Bytes)
    requires FitsEvent(Input(id, v))
    ensures ParseInputEvent(EventContent(Input(id, v)) + rest) == Done(Input(id, v), rest)
  {
    hide LittleEndian, ParseNumber, EncodeInputValue, ParseInputValue, FitsInputValue;
    Limits();
    var tail := EncodeOptional(v) + rest;
    assert EventContent(Input(id, v)) + rest == LittleEndian(id, 4) + tail;
    NumberFits(id, 4, tail);
    match v {
      case None => assert tail[1..] == rest;
      case Some(x) =>
        assert tail[1..] == EncodeInputValue(x) + rest;
        InputValueRoundTrip(x, rest);
    }
  }

  lemma EventContentRoundTrip(e: Event, rest: Bytes)
    requires FitsEvent(e)
    ensures ParseEventContent(EventType(e), EventContent(e) + rest) == Done(e, rest)
  {
    hide LittleEndian, ParseNumber, ParseInputEvent, EncodeOptional, ParseKey, ParseTwo, ParseEnum, ParseAnswer,
         EncodeAnswer, FitsInputValue, FitsAnswer;
    match e {
      case Input(id, v) => InputEventRoundTrip(id, v, rest);
      case Key(_, _, _, _, _) => KeyRoundTrip(e, rest);
      case Resize(w, h) => TwoRoundTrip(w, h, rest);
      case Signal(s) => EnumRoundTrip(s, SIGNALS, rest);
      case Answer(a) => AnswerRoundTrip(a, rest);
    }
  }

  lemma EventShort(e: Event)
    requires FitsEvent(e)
    ensures |EventContent(e)| < 0x1_0000_0000
  {
    hide LittleEndian, IsUtf8;
    if e.Input? && e.value.Some? && e.value.value.Char? {
      OneCharIsText(e.value.value.c);
    }
  }

  /** An event followed by anything decodes to itself and stops where the next begins,
      which is where its length field says. */
  lemma EventRoundTrip(e: Event, rest: Bytes)
    requires FitsEvent(e)
    ensures ParseEvent(EncodeEvent(e) + rest) == Done(e, rest)
    ensures ParseNumber((EncodeEvent(e) + rest)[2..], 4) == Done(|EventContent(e)|, EventContent(e) + rest)
    ensures (EncodeEvent(e) + rest)[6 + |EventContent(e)|..] == rest
  {
    hide EventContent, ParseEventContent, LittleEndian, ParseNumber, FitsEvent;
    Limits();
    EventShort(e);
    var b := EventContent(e) + rest;
    var a := LittleEndian(|EventContent(e)|, 4) + b;
    var all := EncodeEvent(e) + rest;
    assert all == LittleEndian(EventType(e), 2) + a;
    NumberFits(EventType(e), 2, a);
    NumberFits(|EventContent(e)|, 4, b);
    EventContentRoundTrip(e, rest);
    assert all[2..] == a;
    assert all[6 + |EventContent(e)|..] == rest;
  }

  // ---------------------------------------------------------------------------
  // Writing and reading events
  // ---------------------------------------------------------------------------

  method WriteEventContent(e: Event, enc: Encoder)
    modifies enc
    ensures enc.buf == old(enc.buf) + EventContent(e)
  {
    hide LittleEndian, EncodeOptional, EncodeAnswer, Modifiers;
    match e {
      case Input(id, v) =>
        enc.WriteNumber(id, 4);
        WriteOptional(v, enc);
      case Key(code, shift, ctrl, alt, state) =>
        enc.WriteNumber(code, 2);
        enc.WriteByte(Modifiers(shift, ctrl, alt));
        enc.WriteByte(state % 256);
      case Resize(w, h) =>
        enc.WriteNumber(w, 2);
        enc.WriteNumber(h, 2);
      case Signal(s) => enc.WriteByte(s % 256);
      case Answer(a) => WriteAnswer(a, enc);
    }
  }

  method WriteOptional(v: Option<InputValue>, enc: Encoder)
    modifies enc
    ensures enc.buf == old(enc.buf) + EncodeOptional(v)
  {
    hide LittleEndian, EncodeString;
    if v == None {
      enc.WriteByte(0);
      return;
    }
    enc.WriteByte(1);
    match v.value {
      case Text(s) =>
        enc.WriteByte(0);
        enc.WriteString(s);
      case Char(c) =>
        enc.WriteByte(1);
        enc.WriteString(c);
      case Flag(b) =>
        enc.WriteByte(2);
        enc.WriteByte(FlagByte(b));
      case Choice(i) =>
        enc.WriteByte(3);
        enc.WriteNumber(i, 4);
    }
  }

  method WriteAnswer(a: QueryAnswer, enc: Encoder)
    modifies enc
    ensures enc.buf == old(enc.buf) + EncodeAnswer(a)
  {
    hide LittleEndian;
    match a {
      case Size(c, r) =>
        enc.WriteByte(0);
        enc.WriteNumber(c, 2);
        enc.WriteNumber(r, 2);
      case Capabilities(colours, i, h, u) =>
        enc.WriteByte(1);
        enc.WriteByte(colours % 256);
        enc.WriteByte(FlagByte(i));
        enc.WriteByte(FlagByte(h));
        enc.WriteByte(FlagByte(u));
      case CursorPosition(r, c) =>
        enc.WriteByte(2);
        enc.WriteNumber(r, 2);
        enc.WriteNumber(c, 2);
    }
  }

  /** `encode_with_header`: the length is written as zero and patched when it is known. */
  method WriteEvent(e: Event, enc: Encoder)
    modifies enc
    ensures enc.buf == old(enc.buf) + EncodeEvent(e)
  {
    hide LittleEndian, EventContent;
    ghost var start := enc.buf;
    var at := enc.WriteHeader(EventType(e), 0);
    var contentStart := |enc.buf|;
    WriteEventContent(e, enc);
    var length := |enc.buf| - contentStart;
    enc.UpdateLength(at, length);
    Patched(start, LittleEndian(EventType(e), 2), LittleEndian(0, 4), EventContent(e), LittleEndian(length, 4));
  }

  /** `read_u8`. */
  method ReadByte(dec: Decoder) returns (r: Result<Byte>)
    requires dec.Valid()
    modifies dec
    ensures dec.Valid()
    ensures var left := old(dec.Left());
            if left == [] then r == Err(Truncated) else r == Ok(left[0]) && dec.Left() == left[1..]
  {
    if dec.pos >= |dec.buf| {
      return Err(Truncated);
    }
    var b := dec.buf[dec.pos];
    dec.pos := dec.pos + 1;
    return Ok(b);
  }

  method ReadTwo(dec: Decoder) returns (r: Result<(nat, nat)>)
    requires dec.Valid()
    modifies dec
    ensures dec.Valid() && Agrees(r, dec.Left(), ParseTwo(old(dec.Left())))
  {
    hide ParseNumber;
    var a := dec.ReadNumber(2);
    if a.Err? { return Err(a.error); }
    var b := dec.ReadNumber(2);
    if b.Err? { return Err(b.error); }
    return Ok((a.value, b.value));
  }

  method ReadInputValue(dec: Decoder) returns (r: Result<InputValue>)
    requires dec.Valid()
    modifies dec
    ensures dec.Valid() && Agrees(r, dec.Left(), ParseInputValue(old(dec.Left())))
  {
    hide ParseNumber, ParseString, FirstChar;
    var tag := ReadByte(dec);
    if tag.Err? { return Err(tag.error); }
    match tag.value {
      case 0 =>
        var s := dec.ReadString();
        if s.Err? { return Err(s.error); }
        return Ok(Text(s.value));
      case 1 =>
        var s := dec.ReadString();
        if s.Err? { return Err(s.error); }
        var c := FirstChar(s.value);
        if c == None { return Err(InvalidValue); }
        return Ok(Char(c.value));
      case 2 =>
        var b := ReadByte(dec);
        if b.Err? { return Err(b.error); }
        return Ok(Flag(b.value != 0));
      case 3 =>
        var n := dec.ReadNumber(4);
        if n.Err? { return Err(n.error); }
        return Ok(Choice(n.value));
      case _ => return Err(InvalidValue);
    }
  }

  method ReadCapabilities(dec: Decoder) returns (r: Result<QueryAnswer>)
    requires dec.Valid()
    modifies dec
    ensures dec.Valid() && Agrees(r, dec.Left(), ParseCapabilities(old(dec.Left())))
  {
    hide ParseEnum;
    var colours := ReadEnum(COLOUR_LEVELS, dec);
    if colours.Err? { return Err(colours.error); }
    var images := ReadByte(dec);
    if images.Err? { return Err(images.error); }
    var hyperlinks := ReadByte(dec);
    if hyperlinks.Err? { return Err(hyperlinks.error); }
    var unicode := ReadByte(dec);
    if unicode.Err? { return Err(unicode.error); }
    return Ok(Capabilities(colours.value, images.value != 0, hyperlinks.value != 0, unicode.value != 0));
  }

  method ReadAnswer(dec: Decoder) returns (r: Result<QueryAnswer>)
    requires dec.Valid()
    modifies dec
    ensures dec.Valid() && Agrees(r, dec.Left(), ParseAnswer(old(dec.Left())))
  {
    hide ParseTwo, ParseCapabilities;
    var tag := ReadByte(dec);
    if tag.Err? { return Err(tag.error); }
    match tag.value {
      case 0 =>
        var p := ReadTwo(dec);
        if p.Err? { return Err(p.error); }
        return Ok(Size(p.value.0, p.value.1));
      case 1 => r := ReadCapabilities(dec);
      case 2 =>
        var p := ReadTwo(dec);
        if p.Err? { return Err(p.error); }
        return Ok(CursorPosition(p.value.0, p.value.1));
      case _ => return Err(InvalidValue);
    }
  }

  method ReadKey(dec: Decoder) returns (r: Result<Event>)
    requires dec.Valid()
    modifies dec
    ensures dec.Valid() && Agrees(r, dec.Left(), ParseKey(old(dec.Left())))
  {
    hide ParseNumber;
    var code := dec.ReadNumber(2);
    if code.Err? { return Err(code.error); }
    var mods := ReadByte(dec);
    if mods.Err? { return Err(mods.error); }
    var state := ReadByte(dec);
    if state.Err? { return Err(state.error); }
    return Ok(Key(code.value, mods.value % 2 == 1, mods.value / 2 % 2 == 1, mods.value / 4 % 2 == 1, state.value));
  }

  method ReadInputEvent(dec: Decoder) returns (r: Result<Event>)
    requires dec.Valid()
    modifies dec
    ensures dec.Valid() && Agrees(r, dec.Left(), ParseInputEvent(old(dec.Left())))
  {
    hide ParseNumber, ParseInputValue;
    var id := dec.ReadNumber(4);
    if id.Err? { return Err(id.error); }
    var tag := ReadByte(dec);
    if tag.Err? { return Err(tag.error); }
    if tag.value == 0 {
      return Ok(Input(id.value, None));
    }
    var v := ReadInputValue(dec);
    if v.Err? { return Err(v.error); }
    return Ok(Input(id.value, Some(v.value)));
  }

  /** `decode_with_header`. */
  method ReadEvent(dec: Decoder) returns (r: Result<Event>)
    requires dec.Valid()
    modifies dec
    ensures dec.Valid() && Agrees(r, dec.Left(), ParseEvent(old(dec.Left())))
  {
    hide ParseNumber, ParseTwo, ParseKey, ParseEnum, ParseAnswer, ParseInputEvent;
    var kind := dec.ReadNumber(2);
    if kind.Err? { return Err(kind.error); }
    var length := dec.ReadNumber(4);
    if length.Err? { return Err(length.error); }
    match kind.value {
      case 0x100 => r := ReadInputEvent(dec);
      case 0x101 => r := ReadKey(dec);
      case 0x102 =>
        var p := ReadTwo(dec);
        if p.Err? { return Err(p.error); }
        return Ok(Resize(p.value.0, p.value.1));
      case 0x103 =>
        var s := ReadEnum(SIGNALS, dec);
        if s.Err? { return Err(s.error); }
        return Ok(Signal(s.value));
      case 0x104 =>
        var a := ReadAnswer(dec);
        if a.Err? { return Err(a.error); }
        return Ok(Answer(a.value));
      case _ => return Err(UnknownType);
    }
  }

  // ---------------------------------------------------------------------------
  // Whatever decodes fits
  // ---------------------------------------------------------------------------

  lemma FirstCharIsOne(s: Bytes)
    ensures FirstChar(s).Some? ==> OneChar(FirstChar(s).value)
  {
  }

  lemma InputValueFits(bs: Bytes)
    ensures ParseInputValue(bs).Done? ==> FitsInputValue(ParseInputValue(bs).value)
  {
    hide ParseNumber, ParseString, IsUtf8, FirstChar, OneChar;
    Limits();
    if bs != [] && ParseString(bs[1..]).Done? { FirstCharIsOne(ParseString(bs[1..]).value); }
  }

  lemma AnswerFits(bs: Bytes)
    ensures ParseAnswer(bs).Done? ==> FitsAnswer(ParseAnswer(bs).value)
  {
    hide ParseNumber;
    Limits();
  }

  lemma EventContentFits(kind: nat, bs: Bytes)
    ensures ParseEventContent(kind, bs).Done? ==> FitsEvent(ParseEventContent(kind, bs).value)
  {
    hide ParseNumber, ParseAnswer, FitsAnswer, ParseInputValue, FitsInputValue;
    Limits();
    AnswerFits(bs);
    if ParseNumber(bs, 4).Done? && ParseNumber(bs, 4).rest != [] { InputValueFits(ParseNumber(bs, 4).rest[1..]); }
  }

  /** Any bytes that decode as an event give one that fits. */
  lemma ParsedEventFits(bs: Bytes)
    ensures ParseEvent(bs).Done? ==> FitsEvent(ParseEvent(bs).value)
  {
    hide ParseNumber, ParseEventContent, FitsEvent;
    if ParseNumber(bs, 2).Done? && ParseNumber(ParseNumber(bs, 2).rest, 4).Done? {
      EventContentFits(ParseNumber(bs, 2).value, ParseNumber(ParseNumber(bs, 2).rest, 4).rest);
    }
  }

  /** An event round-trips exactly when it fits. */
  lemma EventRoundTripIff(e: Event, rest: Bytes)
    ensures ParseEvent(EncodeEvent(e) + rest) == Done(e, rest) <==> FitsEvent(e)
  {
    hide ParseEvent, EncodeEvent, FitsEvent;
    ParsedEventFits(EncodeEvent(e) + rest);
    if FitsEvent(e) { EventRoundTrip(e, rest); }
  }

  /** Which event it is is in the first two bytes, on the wire and when any bytes are read. */
  lemma EventTag(e: Event)
    ensures var bs := EncodeEvent(e);
            && bs[1] == 1
            && bs[0] ==
               match e
               case Input(_, _) => 0
               case Key(_, _, _, _, _) => 1
               case Resize(_, _) => 2
               case Signal(_) => 3
               case Answer(_) => 4
  {
    hide EventContent;
    LittleEndianByte(EventType(e), 2, 0);
    LittleEndianByte(EventType(e), 2, 1);
  }

  lemma DecodedEventTag(bs: Bytes)
    requires ParseEvent(bs).Done?
    ensures |bs| >= 6 && bs[1] == 1 && bs[0] == EncodeEvent(ParseEvent(bs).value)[0]
  {
    hide EventContent, ParseInputValue, ParseTwo, ParseEnum, ParseAnswer, EncodeEvent;
    EventTag(ParseEvent(bs).value);
    assert bs[..2][1..] == [bs[1]] && [bs[1]][1..] == [];
    assert FromLittleEndian(bs[..2]) == bs[0] as int + 256 * bs[1] as int;
  }

  /** The modifier byte of a key: shift, control, alt from the lowest bit up. */
  lemma ModifierBits(shift: bool, ctrl: bool, alt: bool)
    ensures var m := Modifiers(shift, ctrl, alt);
            (m % 2 == 1 <==> shift) && (m / 2 % 2 == 1 <==> ctrl) && (m / 4 % 2 == 1 <==> alt) && m < 8
  {
  }

  /** After its type an event has the length of its content, low byte first, and the content. */
  lemma EventLayout(e: Event, i: nat)
    requires i < 4
    ensures var bs := EncodeEvent(e);
            bs[2 + i] == |EventContent(e)| / Limit(i) % 256 && bs[6..] == EventContent(e)
  {
    hide EventContent, LittleEndian;
    LittleEndianByte(|EventContent(e)|, 4, i);
  }

  /** Where the parts of the contents are. */
  lemma EventContentLayout(e: Event, i: nat)
    requires i < 4 && FitsEvent(e)
    ensures var bs := EventContent(e);
            match e
            case Input(id, v) => |bs| > 4 && bs[i] == id / Limit(i) % 256 && (bs[4] == 0 <==> v == None)
            case Key(code, shift, ctrl, alt, state) =>
              bs == [code % 0x100, code / 0x100, Modifiers(shift, ctrl, alt), state]
            case Resize(w, h) => bs == [w % 0x100, w / 0x100, h % 0x100, h / 0x100]
            case Signal(s) => bs == [s]
            case Answer(Size(c, r)) => bs == [0, c % 0x100, c / 0x100, r % 0x100, r / 0x100]
            case Answer(CursorPosition(r, c)) => bs == [2, r % 0x100, r / 0x100, c % 0x100, c / 0x100]
            case Answer(Capabilities(colours, images, links, unicode)) =>
              bs == [1, colours, if images then 1 else 0, if links then 1 else 0, if unicode then 1 else 0]
  {
    hide EncodeInputValue, FitsInputValue, LittleEndian, IsUtf8, Modifiers;
    match e {
      case Input(id, v) => LittleEndianByte(id, 4, i);
      case Key(code, _, _, _, _) => TwoBytes(code);
      case Resize(w, h) =>
        TwoBytes(w);
        TwoBytes(h);
      case Answer(Size(c, r)) =>
        TwoBytes(c);
        TwoBytes(r);
      case Answer(CursorPosition(r, c)) =>
        TwoBytes(r);
        TwoBytes(c);
      case _ =>
    }
  }
}
