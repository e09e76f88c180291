/** Control messages from a child process to its terminal, with their type-length-value
    header (`panda-abi/src/terminal.rs`). */
module TerminalCodec {
  import opened Common
  import opened Encoding
  import opened ValueCodec
  import opened ValueStream

  datatype InputRequest = InputRequest(id: nat, kind: nat, prompt: Option<Value>, choices: seq<Bytes>)

  /** Regions, input kinds and queries are their numbers. */
  datatype Request =
    | Error(value: Value)
    | Warning(value: Value)
    | MoveCursor(row: nat, col: nat)
    | Clear(region: nat)
    | RequestInput(input: InputRequest)
    | SetTitle(title: Bytes)
    | Progress(current: nat, total: nat, message: Bytes)
    | Query(query: nat)
    | Exit(code: int)
    | Write(value: Value)

  const REGIONS: nat := 4
  const INPUT_KINDS: nat := 6
  const QUERIES: nat := 3

  function MessageType(r: Request): nat {
    match r
    case Write(_) => 1
    case MoveCursor(_, _) => 2
    case Clear(_) => 3
    case RequestInput(_) => 4
    case SetTitle(_) => 5
    case Progress(_, _, _) => 6
    case Query(_) => 7
    case Exit(_) => 8
    case Error(_) => 9
    case Warning(_) => 10
  }

  predicate FitsStrings(ss: seq<Bytes>) {
    forall s <- ss :: FitsString(s)
  }

  predicate FitsInput(i: InputRequest) {
    && i.id < 0x1_0000_0000 && i.kind < INPUT_KINDS
    && (i.prompt.Some? ==> Fits(i.prompt.value))
    && |i.choices| < 0x10000 && FitsStrings(i.choices)
  }

  predicate FitsRequest(r: Request) {
    match r
    case Error(v) => Fits(v)
    case Warning(v) => Fits(v)
    case Write(v) => Fits(v)
    case MoveCursor(row, col) => row < 0x10000 && col < 0x10000
    case Clear(region) => region < REGIONS
    case RequestInput(i) => FitsInput(i)
    case SetTitle(t) => FitsString(t)
    case Progress(c, t, m) => c < 0x1_0000_0000 && t < 0x1_0000_0000 && FitsString(m)
    case Query(q) => q < QUERIES
    case Exit(code) => FitsSigned(code, 4)
  }

  // ---------------------------------------------------------------------------
  // Parts
  // ---------------------------------------------------------------------------

  function EncodeStrings(ss: seq<Bytes>): Bytes {
    if ss == [] then [] else EncodeString(ss[0]) + EncodeStrings(ss[1..])
  }

  function ParseStrings(bs: Bytes, count: nat): Parsed<seq<Bytes>> {
    if count == 0 then Done([], bs)
    else
      match ParseString(bs)
      case Fail(e) => Fail(e)
      case Done(s, rest) =>
        match ParseStrings(rest, count - 1)
        case Fail(e) => Fail(e)
        case Done(ss, rest') => Done([s] + ss, rest')
  }

  lemma {:induction false} StringsRoundTrip(ss: seq<Bytes>, rest: Bytes)
    requires FitsStrings(ss)
    ensures ParseStrings(EncodeStrings(ss) + rest, |ss|) == Done(ss, rest)
  {
    hide EncodeString, ParseString, FitsString;
    if ss == [] {
      assert EncodeStrings(ss) + rest == rest;
    } else {
      assert EncodeStrings(ss) + rest == EncodeString(ss[0]) + (EncodeStrings(ss[1..]) + rest);
      StringOk(ss[0], EncodeStrings(ss[1..]) + rest);
      StringsRoundTrip(ss[1..], rest);
      assert [ss[0]] + ss[1..] == ss;
    }
  }

  lemma StringOk(s: Bytes, rest: Bytes)
    requires FitsString(s)
    ensures ParseString(EncodeString(s) + rest) == Done(s, rest)
  {
    StringFits(s, rest);
  }

  function EncodePrompt(p: Option<Value>): Bytes {
    match p
    case None => [0]
    case Some(v) => [1] + Encode(v)
  }

  function ParsePrompt(bs: Bytes): Parsed<Option<Value>> {
    if bs == [] then Fail(Truncated)
    else if bs[0] == 0 then Done(None, bs[1..])
    else match Parse(bs[1..])
         case Fail(e) => Fail(e)
         case Done(v, rest) => Done(Some(v), rest)
  }

  lemma PromptRoundTrip(p: Option<Value>, rest: Bytes)
    requires p.Some? ==> Fits(p.value)
    ensures ParsePrompt(EncodePrompt(p) + rest) == Done(p, rest)
  {
    hide Parse, Encode, Fits;
    var bs := EncodePrompt(p) + rest;
    match p {
      case None => assert bs[1..] == rest;
      case Some(v) =>
        assert bs[1..] == Encode(v) + rest;
        RoundTrip(v, rest);
    }
  }

  /** A one-byte enumeration with `n` values. */
  function ParseEnum(bs: Bytes, n: nat): Parsed<nat> {
    if bs == [] then Fail(Truncated) else if bs[0] >= n then Fail(InvalidValue) else Done(bs[0], bs[1..])
  }

  function EncodeInput(i: InputRequest): Bytes {
    LittleEndian(i.id, 4) +
    ([i.kind % 256] + (EncodePrompt(i.prompt) + (LittleEndian(|i.choices|, 2) + EncodeStrings(i.choices))))
  }

  function ParseInput(bs: Bytes): Parsed<InputRequest> {
    match ParseNumber(bs, 4)
    case Fail(e) => Fail(e)
    case Done(id, r1) =>
      match ParseEnum(r1, INPUT_KINDS)
      case Fail(e) => Fail(e)
      case Done(kind, r2) =>
        match ParsePrompt(r2)
        case Fail(e) => Fail(e)
        case Done(prompt, r3) =>
          match ParseNumber(r3, 2)
          case Fail(e) => Fail(e)
          case Done(n, r4) =>
            match ParseStrings(r4, n)
            case Fail(e) => Fail(e)
            case Done(choices, r5) => Done(InputRequest(id, kind, prompt, choices), r5)
  }

  lemma EnumRoundTrip(k: nat, n: nat, rest: Bytes)
    requires k < n <= 256
    ensures ParseEnum([k] + rest, n) == Done(k, rest)
  {
    assert ([k] + rest)[1..] == rest;
  }

  lemma Limits()
    ensures Limit(2) == 0x10000 && Limit(4) == 0x1_0000_0000
  {
    assert Limit(2) == 0x10000;
  }

  lemma InputRoundTrip(i: InputRequest, rest: Bytes)
    requires FitsInput(i)
    ensures ParseInput(EncodeInput(i) + rest) == Done(i, rest)
  {
    hide LittleEndian, ParseNumber, ParseEnum, ParsePrompt, EncodePrompt, ParseStrings, EncodeStrings, Fits, FitsString;
    Limits();
    var d := EncodeStrings(i.choices) + rest;
    var c := LittleEndian(|i.choices|, 2) + d;
    var b := EncodePrompt(i.prompt) + c;
    var a := [i.kind] + b;
    assert EncodeInput(i) + rest == LittleEndian(i.id, 4) + a;
    NumberFits(i.id, 4, a);
    EnumRoundTrip(i.kind, INPUT_KINDS, b);
    PromptRoundTrip(i.prompt, c);
    NumberFits(|i.choices|, 2, d);
    StringsRoundTrip(i.choices, rest);
  }

  // ---------------------------------------------------------------------------
  // Messages
  // ---------------------------------------------------------------------------

  function Content(r: Request): Bytes {
    match r
    case Error(v) => Encode(v)
    case Warning(v) => Encode(v)
    case Write(v) => Encode(v)
    case MoveCursor(row, col) => LittleEndian(row, 2) + LittleEndian(col, 2)
    case Clear(region) => [region % 256]
    case RequestInput(i) => EncodeInput(i)
    case SetTitle(t) => EncodeString(t)
    case Progress(c, t, m) => LittleEndian(c, 4) + (LittleEndian(t, 4) + EncodeString(m))
    case Query(q) => [q % 256]
    case Exit(code) => LittleEndian(ToUnsigned(code, 4), 4)
  }

  /** The message on the wire: type, length of the content, content. */
  function EncodeRequest(r: Request): Bytes {
    LittleEndian(MessageType(r), 2) + LittleEndian(|Content(r)|, 4) + Content(r)
  }

  function ParsePair(bs: Bytes): Parsed<Request> {
    match ParseNumber(bs, 2)
    case Fail(e) => Fail(e)
    case Done(row, rest) =>
      match ParseNumber(rest, 2)
      case Fail(e) => Fail(e)
      case Done(col, rest') => Done(MoveCursor(row, col), rest')
  }

  function ParseProgress(bs: Bytes): Parsed<Request> {
    match ParseNumber(bs, 4)
    case Fail(e) => Fail(e)
    case Done(c, rest) =>
      match ParseNumber(rest, 4)
      case Fail(e) => Fail(e)
      case Done(t, rest') =>
        match ParseString(rest')
        case Fail(e) => Fail(e)
        case Done(m, rest'') => Done(Progress(c, t, m), rest'')
  }

  /** The content of each type of message. */
  function ParseContent(kind: nat, bs: Bytes): Parsed<Request> {
    match kind
    case 1 => (match Parse(bs) case Fail(e) => Fail(e) case Done(v, rest) => Done(Write(v), rest))
    case 2 => ParsePair(bs)
    case 3 => (match ParseEnum(bs, REGIONS) case Fail(e) => Fail(e) case Done(n, rest) => Done(Clear(n), rest))
    case 4 => (match ParseInput(bs) case Fail(e) => Fail(e) case Done(i, rest) => Done(RequestInput(i), rest))
    case 5 => (match ParseString(bs) case Fail(e) => Fail(e) case Done(s, rest) => Done(SetTitle(s), rest))
    case 6 => ParseProgress(bs)
    case 7 => (match ParseEnum(bs, QUERIES) case Fail(e) => Fail(e) case Done(n, rest) => Done(Query(n), rest))
    case 8 => (match ParseNumber(bs, 4) case Fail(e) => Fail(e) case Done(n, rest) => Done(Exit(ToSigned(n, 4)), rest))
    case 9 => (match Parse(bs) case Fail(e) => Fail(e) case Done(v, rest) => Done(Error(v), rest))
    case 10 => (match Parse(bs) case Fail(e) => Fail(e) case Done(v, rest) => Done(Warning(v), rest))
    case _ => Fail(UnknownType)
  }

  /** `decode_with_header`: the length is read and not used. */
  function ParseRequest(bs: Bytes): Parsed<Request> {
    match ParseNumber(bs, 2)
    case Fail(e) => Fail(e)
    case Done(kind, rest) =>
      match ParseNumber(rest, 4)
      case Fail(e) => Fail(e)
      case Done(_, rest') => ParseContent(kind, rest')
  }

  lemma PairRoundTrip(row: nat, col: nat, rest: Bytes)
    requires row < 0x10000 && col < 0x10000
    ensures ParsePair(LittleEndian(row, 2) + LittleEndian(col, 2) + rest) == Done(MoveCursor(row, col), rest)
  {
    hide LittleEndian, ParseNumber;
    Limits();
    assert LittleEndian(row, 2) + LittleEndian(col, 2) + rest == LittleEndian(row, 2) + (LittleEndian(col, 2) + rest);
    NumberFits(row, 2, LittleEndian(col, 2) + rest);
    NumberFits(col, 2, rest);
  }

  lemma ProgressRoundTrip(c: nat, t: nat, m: Bytes, rest: Bytes)
    requires c < 0x1_0000_0000 && t < 0x1_0000_0000 && FitsString(m)
    ensures ParseProgress(LittleEndian(c, 4) + (LittleEndian(t, 4) + EncodeString(m)) + rest) ==
            Done(Progress(c, t, m), rest)
  {
    hide LittleEndian, ParseNumber, EncodeString, ParseString, FitsString;
    Limits();
    var b := EncodeString(m) + rest;
    var a := LittleEndian(t, 4) + b;
    assert LittleEndian(c, 4) + (LittleEndian(t, 4) + EncodeString(m)) + rest == LittleEndian(c, 4) + a;
    NumberFits(c, 4, a);
    NumberFits(t, 4, b);
    StringOk(m, rest);
  }

  lemma ContentRoundTrip(r: Request, rest: Bytes)
    requires FitsRequest(r)
    ensures ParseContent(MessageType(r), Content(r) + rest) == Done(r, rest)
  {
    hide Parse, Encode, Fits, FitsString, ParsePair, ParseProgress, ParseInput, EncodeInput, ParseEnum, ParseString,
         EncodeString, ParseNumber, LittleEndian;
    match r {
      case Error(v) => RoundTrip(v, rest);
      case Warning(v) => RoundTrip(v, rest);
      case Write(v) => RoundTrip(v, rest);
      case MoveCursor(row, col) => PairRoundTrip(row, col, rest);
      case Clear(region) => EnumRoundTrip(region, REGIONS, rest);
      case RequestInput(i) => InputRoundTrip(i, rest);
      case SetTitle(t) => StringOk(t, rest);
      case Progress(c, t, m) => ProgressRoundTrip(c, t, m, rest);
      case Query(q) => EnumRoundTrip(q, QUERIES, rest);
      case Exit(code) =>
        SignedRoundTrip(code, 4);
        NumberFits(ToUnsigned(code, 4), 4, rest);
    }
  }

  /** A message followed by anything decodes to itself and stops where the next begins,
      which is where its length field says, when that is short enough for the field. */
  lemma RequestRoundTrip(r: Request, rest: Bytes)
    requires FitsRequest(r)
    ensures ParseRequest(EncodeRequest(r) + rest) == Done(r, rest)
    ensures |Content(r)| < 0x1_0000_0000 ==>
              && ParseNumber((EncodeRequest(r) + rest)[2..], 4) == Done(|Content(r)|, Content(r) + rest)
              && (EncodeRequest(r) + rest)[6 + |Content(r)|..] == rest
  {
    hide Content, ParseContent, LittleEndian, ParseNumber, FitsRequest;
    Limits();
    var b := Content(r) + rest;
    var a := LittleEndian(|Content(r)|, 4) + b;
    var all := EncodeRequest(r) + rest;
    assert all == LittleEndian(MessageType(r), 2) + a;
    NumberFits(MessageType(r), 2, a);
    NumberRoundTrip(|Content(r)|, 4, b);
    ContentRoundTrip(r, rest);
    assert all[2..] == a;
    if |Content(r)| < 0x1_0000_0000 {
      NumberFits(|Content(r)|, 4, b);
      assert all[6 + |Content(r)|..] == rest;
    }
  }

  // ---------------------------------------------------------------------------
  // Writing and reading messages
  // ---------------------------------------------------------------------------

  lemma {:induction false} StringsSnoc(ss: seq<Bytes>, s: Bytes)
    ensures EncodeStrings(ss + [s]) == EncodeStrings(ss) + EncodeString(s)
  {
    hide EncodeString;
    if ss == [] {
      assert ss + [s] == [s] && [s][1..] == [];
      assert EncodeStrings([s]) == EncodeString(s) + EncodeStrings([]);
    } else {
      assert (ss + [s])[1..] == ss[1..] + [s];
      StringsSnoc(ss[1..], s);
    }
  }

  method WriteStrings(ss: seq<Bytes>, enc: Encoder)
    modifies enc
    ensures enc.buf == old(enc.buf) + (LittleEndian(|ss|, 2) + EncodeStrings(ss))
  {
    hide EncodeString, LittleEndian;
    enc.WriteNumber(|ss|, 2);
    ghost var start := enc.buf;
    var i := 0;
    assert ss[..0] == [];
    while i < |ss|
      invariant 0 <= i <= |ss| && enc.buf == start + EncodeStrings(ss[..i])
    {
      assert ss[..i + 1] == ss[..i] + [ss[i]];
      StringsSnoc(ss[..i], ss[i]);
      enc.WriteString(ss[i]);
      i := i + 1;
    }
    assert ss[..i] == ss;
  }

  method WriteInput(i: InputRequest, enc: Encoder)
    modifies enc
    ensures enc.buf == old(enc.buf) + EncodeInput(i)
  {
    hide LittleEndian, EncodeStrings, Encode;
    ghost var start := enc.buf;
    enc.WriteNumber(i.id, 4);
    enc.WriteByte(i.kind % 256);
    match i.prompt {
      case None => enc.WriteByte(0);
      case Some(v) =>
        enc.WriteByte(1);
        WriteValue(v, enc);
    }
    assert enc.buf == start + LittleEndian(i.id, 4) + [i.kind % 256] + EncodePrompt(i.prompt);
    WriteStrings(i.choices, enc);
    Joined(start, LittleEndian(i.id, 4), [i.kind % 256], EncodePrompt(i.prompt));
  }

  method WriteContent(r: Request, enc: Encoder)
    modifies enc
    ensures enc.buf == old(enc.buf) + Content(r)
  {
    hide LittleEndian, EncodeString, Encode, EncodeInput, ToUnsigned;
    match r {
      case Error(v) => WriteValue(v, enc);
      case Warning(v) => WriteValue(v, enc);
      case Write(v) => WriteValue(v, enc);
      case MoveCursor(row, col) =>
        enc.WriteNumber(row, 2);
        enc.WriteNumber(col, 2);
      case Clear(region) => enc.WriteByte(region % 256);
      case RequestInput(i) => WriteInput(i, enc);
      case SetTitle(t) => enc.WriteString(t);
      case Progress(c, t, m) =>
        enc.WriteNumber(c, 4);
        enc.WriteNumber(t, 4);
        enc.WriteString(m);
      case Query(q) => enc.WriteByte(q % 256);
      case Exit(code) => enc.WriteNumber(ToUnsigned(code, 4), 4);
    }
  }

  /** `encode_with_header`: the length is written as zero and patched when it is known. */
  method WriteRequest(r: Request, enc: Encoder)
    modifies enc
    ensures enc.buf == old(enc.buf) + EncodeRequest(r)
  {
    hide LittleEndian, Content;
    ghost var start := enc.buf;
    var at := enc.WriteHeader(MessageType(r), 0);
    var contentStart := |enc.buf|;
    WriteContent(r, enc);
    var length := |enc.buf| - contentStart;
    enc.UpdateLength(at, length);
    Patched(start, LittleEndian(MessageType(r), 2), LittleEndian(0, 4), Content(r), LittleEndian(length, 4));
  }

  lemma Patched(start: Bytes, kind: Bytes, zero: Bytes, content: Bytes, length: Bytes)
    requires |kind| == 2 && |zero| == 4 && |length| == 4
    ensures var buf := start + kind + zero + content;
            var at := |start| + 2;
            buf[..at] + length + buf[at + 4..] == start + (kind + length + content)
  {
  }

  method ReadEnum(n: nat, dec: Decoder) returns (r: Result<nat>)
    requires dec.Valid()
    modifies dec
    ensures dec.Valid() && Agrees(r, dec.Left(), ParseEnum(old(dec.Left()), n))
  {
    if dec.pos >= |dec.buf| {
      return Err(Truncated);
    }
    var k := dec.buf[dec.pos];
    dec.pos := dec.pos + 1;
    assert dec.Left() == old(dec.Left())[1..];
    if k >= n {
      return Err(InvalidValue);
    }
    return Ok(k);
  }

  method ReadPrompt(dec: Decoder) returns (r: Result<Option<Value>>)
    requires dec.Valid()
    modifies dec
    ensures dec.Valid() && Agrees(r, dec.Left(), ParsePrompt(old(dec.Left())))
  {
    hide Parse;
    if dec.pos >= |dec.buf| {
      return Err(Truncated);
    }
    var tag := dec.buf[dec.pos];
    dec.pos := dec.pos + 1;
    assert dec.Left() == old(dec.Left())[1..];
    if tag == 0 {
      return Ok(None);
    }
    var v := ReadValue(dec);
    if v.Err? { return Err(v.error); }
    return Ok(Some(v.value));
  }

  /** Strings already read, followed by the outcome of the rest. */
  function StringsAfter(ss: seq<Bytes>, p: Parsed<seq<Bytes>>): Parsed<seq<Bytes>> {
    match p
    case Fail(e) => Fail(e)
    case Done(more, rest) => Done(ss + more, rest)
  }

  lemma StringsStep(ss: seq<Bytes>, bs: Bytes, n: nat)
    requires n > 0
    ensures ParseString(bs).Fail? ==> StringsAfter(ss, ParseStrings(bs, n)) == Fail(ParseString(bs).error)
    ensures ParseString(bs).Done? ==>
              StringsAfter(ss, ParseStrings(bs, n)) ==
              StringsAfter(ss + [ParseString(bs).value], ParseStrings(ParseString(bs).rest, n - 1))
  {
    hide ParseString;
    if ParseString(bs).Done? {
      var more := ParseStrings(ParseString(bs).rest, n - 1);
      if more.Done? {
        assert ss + ([ParseString(bs).value] + more.value) == (ss + [ParseString(bs).value]) + more.value;
      }
    }
  }

  lemma StringsEnds(ss: seq<Bytes>, bs: Bytes, p: Parsed<seq<Bytes>>)
    ensures StringsAfter(ss, ParseStrings(bs, 0)) == Done(ss, bs) && StringsAfter([], p) == p
  {
    assert ss + [] == ss;
    if p.Done? { assert [] + p.value == p.value; }
  }

  method ReadStrings(count: nat, dec: Decoder) returns (r: Result<seq<Bytes>>)
    requires dec.Valid()
    modifies dec
    ensures dec.Valid() && Agrees(r, dec.Left(), ParseStrings(old(dec.Left()), count))
  {
    hide ParseString, ParseStrings, StringsAfter;
    ghost var start := dec.Left();
    var ss: seq<Bytes> := [];
    var i := 0;
    StringsEnds([], start, ParseStrings(start, count));
    while i < count
      invariant 0 <= i <= count && dec.Valid()
      invariant StringsAfter(ss, ParseStrings(dec.Left(), count - i)) == ParseStrings(start, count)
    {
      StringsStep(ss, dec.Left(), count - i);
      var s := dec.ReadString();
      if s.Err? { return Err(s.error); }
      ss := ss + [s.value];
      i := i + 1;
    }
    StringsEnds(ss, dec.Left(), ParseStrings(start, count));
    return Ok(ss);
  }

  method ReadInput(dec: Decoder) returns (r: Result<InputRequest>)
    requires dec.Valid()
    modifies dec
    ensures dec.Valid() && Agrees(r, dec.Left(), ParseInput(old(dec.Left())))
  {
    hide ParseNumber, ParseEnum, ParsePrompt, ParseStrings;
    var id := dec.ReadNumber(4);
    if id.Err? { return Err(id.error); }
    var kind := ReadEnum(INPUT_KINDS, dec);
    if kind.Err? { return Err(kind.error); }
    var prompt := ReadPrompt(dec);
    if prompt.Err? { return Err(prompt.error); }
    var count := dec.ReadNumber(2);
    if count.Err? { return Err(count.error); }
    var choices := ReadStrings(count.value, dec);
    if choices.Err? { return Err(choices.error); }
    return Ok(InputRequest(id.value, kind.value, prompt.value, choices.value));
  }

  method ReadContent(kind: nat, dec: Decoder) returns (r: Result<Request>)
    requires dec.Valid()
    modifies dec
    ensures dec.Valid() && Agrees(r, dec.Left(), ParseContent(kind, old(dec.Left())))
  {
    hide Parse, ParseNumber, ParseEnum, ParseInput, ParseString;
    match kind {
      case 1 =>
        var v := ReadValue(dec);
        if v.Err? { return Err(v.error); }
        return Ok(Write(v.value));
      case 2 =>
        var row := dec.ReadNumber(2);
        if row.Err? { return Err(row.error); }
        var col := dec.ReadNumber(2);
        if col.Err? { return Err(col.error); }
        return Ok(MoveCursor(row.value, col.value));
      case 3 =>
        var n := ReadEnum(REGIONS, dec);
        if n.Err? { return Err(n.error); }
        return Ok(Clear(n.value));
      case 4 =>
        var i := ReadInput(dec);
        if i.Err? { return Err(i.error); }
        return Ok(RequestInput(i.value));
      case 5 =>
        var s := dec.ReadString();
        if s.Err? { return Err(s.error); }
        return Ok(SetTitle(s.value));
      case 6 =>
        var c := dec.ReadNumber(4);
        if c.Err? { return Err(c.error); }
        var t := dec.ReadNumber(4);
        if t.Err? { return Err(t.error); }
        var m := dec.ReadString();
        if m.Err? { return Err(m.error); }
        return Ok(Progress(c.value, t.value, m.value));
      case 7 =>
        var n := ReadEnum(QUERIES, dec);
        if n.Err? { return Err(n.error); }
        return Ok(Query(n.value));
      case 8 =>
        var n := dec.ReadNumber(4);
        if n.Err? { return Err(n.error); }
        return Ok(Exit(ToSigned(n.value, 4)));
      case 9 =>
        var v := ReadValue(dec);
        if v.Err? { return Err(v.error); }
        return Ok(Error(v.value));
      case 10 =>
        var v := ReadValue(dec);
        if v.Err? { return Err(v.error); }
        return Ok(Warning(v.value));
      case _ => return Err(UnknownType);
    }
  }

  /** `decode_with_header`. */
  method ReadRequest(dec: Decoder) returns (r: Result<Request>)
    requires dec.Valid()
    modifies dec
    ensures dec.Valid() && Agrees(r, dec.Left(), ParseRequest(old(dec.Left())))
  {
    hide ParseNumber, ParseContent;
    var kind := dec.ReadNumber(2);
    if kind.Err? { return Err(kind.error); }
    var length := dec.ReadNumber(4);
    if length.Err? { return Err(length.error); }
    r := ReadContent(kind.value, dec);
  }

  // ---------------------------------------------------------------------------
  // Whatever decodes fits
  // ---------------------------------------------------------------------------

  lemma {:induction false} StringsFit(bs: Bytes, count: nat)
    ensures ParseStrings(bs, count).Done? ==>
              |ParseStrings(bs, count).value| == count && FitsStrings(ParseStrings(bs, count).value)
    decreases count
  {
    hide ParseString, IsUtf8;
    if count > 0 && ParseString(bs).Done? { StringsFit(ParseString(bs).rest, count - 1); }
  }

  lemma PromptFits(bs: Bytes)
    ensures ParsePrompt(bs).Done? && ParsePrompt(bs).value.Some? ==> Fits(ParsePrompt(bs).value.value)
  {
    hide Parse, Fits;
    if bs != [] { ParsedFits(bs[1..]); }
  }

  lemma InputFits(bs: Bytes)
    ensures ParseInput(bs).Done? ==> FitsInput(ParseInput(bs).value)
  {
    hide ParseNumber, ParsePrompt, ParseStrings, Fits, FitsString;
    Limits();
    var r1 := ParseNumber(bs, 4);
    if r1.Done? && ParseEnum(r1.rest, INPUT_KINDS).Done? {
      var r2 := ParseEnum(r1.rest, INPUT_KINDS).rest;
      PromptFits(r2);
      if ParsePrompt(r2).Done? && ParseNumber(ParsePrompt(r2).rest, 2).Done? {
        var r4 := ParseNumber(ParsePrompt(r2).rest, 2);
        StringsFit(r4.rest, r4.value);
      }
    }
  }

  lemma ContentFits(kind: nat, bs: Bytes)
    ensures ParseContent(kind, bs).Done? ==>
              FitsRequest(ParseContent(kind, bs).value) && MessageType(ParseContent(kind, bs).value) == kind
  {
    hide Parse, ParseNumber, ParseString, ParseInput, Fits, FitsInput, IsUtf8;
    Limits();
    ParsedFits(bs);
    InputFits(bs);
    if ParseNumber(bs, 4).Done? { SignedFits(ParseNumber(bs, 4).value); }
  }

  lemma SignedFits(n: nat)
    requires n < Limit(4)
    ensures FitsSigned(ToSigned(n, 4), 4)
  {
    Limits();
  }

  /** Any bytes that decode as a request give one that fits. */
  lemma ParsedRequestFits(bs: Bytes)
    ensures ParseRequest(bs).Done? ==> FitsRequest(ParseRequest(bs).value)
  {
    hide ParseNumber, ParseContent, FitsRequest;
    if ParseNumber(bs, 2).Done? && ParseNumber(ParseNumber(bs, 2).rest, 4).Done? {
      ContentFits(ParseNumber(bs, 2).value, ParseNumber(ParseNumber(bs, 2).rest, 4).rest);
    }
  }

  /** A request round-trips exactly when it fits. */
  lemma RequestRoundTripIff(r: Request, rest: Bytes)
    ensures ParseRequest(EncodeRequest(r) + rest) == Done(r, rest) <==> FitsRequest(r)
  {
    hide ParseRequest, EncodeRequest, FitsRequest;
    ParsedRequestFits(EncodeRequest(r) + rest);
    if FitsRequest(r) { RequestRoundTrip(r, rest); }
  }

  /** Which message it is is in the first two bytes, on the wire and when any bytes are read. */
  lemma RequestTag(r: Request)
    ensures var bs := EncodeRequest(r);
            && bs[1] == 0
            && bs[0] ==
               match r
               case Write(_) => 1
               case MoveCursor(_, _) => 2
               case Clear(_) => 3
               case RequestInput(_) => 4
               case SetTitle(_) => 5
               case Progress(_, _, _) => 6
               case Query(_) => 7
               case Exit(_) => 8
               case Error(_) => 9
               case Warning(_) => 10
  {
    hide Content;
    LittleEndianByte(MessageType(r), 2, 0);
    LittleEndianByte(MessageType(r), 2, 1);
  }

  lemma DecodedRequestTag(bs: Bytes)
    requires ParseRequest(bs).Done?
    ensures |bs| >= 6 && bs[1] == 0 && bs[0] == EncodeRequest(ParseRequest(bs).value)[0]
  {
    hide Content, Parse, ParseEnum, ParseInput, ParseString, ToSigned, EncodeRequest;
    RequestTag(ParseRequest(bs).value);
    assert bs[..2][1..] == [bs[1]] && [bs[1]][1..] == [];
    assert FromLittleEndian(bs[..2]) == bs[0] as int + 256 * bs[1] as int;
  }

  /** After its type a message has the length of its content, low byte first, and the content. */
  lemma MessageLayout(r: Request, i: nat)
    requires i < 4
    ensures var bs := EncodeRequest(r);
            bs[2 + i] == |Content(r)| / Limit(i) % 256 && bs[6..] == Content(r)
  {
    hide Content, LittleEndian;
    LittleEndianByte(|Content(r)|, 4, i);
  }

  /** Where the parts of the contents of fixed size are. */
  lemma ShortContentLayout(r: Request, i: nat)
    requires i < 4 && FitsRequest(r)
    ensures match r
            case MoveCursor(row, col) => Content(r) == [row % 0x100, row / 0x100, col % 0x100, col / 0x100]
            case Clear(region) => Content(r) == [region]
            case Query(q) => Content(r) == [q]
            case Exit(code) =>
              |Content(r)| == 4 && Content(r)[i] == (if code < 0 then Limit(4) + code else code) / Limit(i) % 256
            case _ => true
  {
    hide Encode, EncodeString, EncodeInput, LittleEndian, Fits, FitsInput, FitsString;
    match r {
      case MoveCursor(row, col) =>
        TwoBytes(row);
        TwoBytes(col);
      case Exit(code) =>
        TwosComplement(code, 4);
        LittleEndianByte(ToUnsigned(code, 4), 4, i);
      case _ =>
    }
  }

  /** Where the parts of the others are. */
  lemma LongContentLayout(r: Request, i: nat)
    requires i < 4 && FitsRequest(r)
    ensures match r
            case Write(v) => Content(r) == Encode(v)
            case Error(v) => Content(r) == Encode(v)
            case Warning(v) => Content(r) == Encode(v)
            case SetTitle(t) => Content(r) == [|t| % 0x100, |t| / 0x100] + t
            case Progress(done, total, m) =>
              && |Content(r)| == 10 + |m| && Content(r)[10..] == m
              && Content(r)[i] == done / Limit(i) % 256 && Content(r)[4 + i] == total / Limit(i) % 256
            case RequestInput(input) =>
              && |Content(r)| > 4 && Content(r)[i] == input.id / Limit(i) % 256 && Content(r)[4] == input.kind
            case _ => true
  {
    hide Encode, EncodePrompt, EncodeStrings, LittleEndian, EncodeString, IsUtf8, Fits;
    match r {
      case SetTitle(t) => StringLayout(t);
      case Progress(done, total, m) =>
        LittleEndianByte(done, 4, i);
        LittleEndianByte(total, 4, i);
        StringLayout(m);
        var tail := LittleEndian(total, 4) + EncodeString(m);
        assert tail[4 + 2..] == m;
        assert Content(r) == LittleEndian(done, 4) + tail;
        assert Content(r)[4..] == tail && Content(r)[10..] == tail[6..];
      case RequestInput(input) => LittleEndianByte(input.id, 4, i);
      case _ =>
    }
  }
}
