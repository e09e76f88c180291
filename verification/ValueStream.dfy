/** The encoder and decoder methods for values (`panda-abi/src/value.rs`,
    `panda-abi/src/encoding.rs`): they write, and read, exactly what the codec says. */
module ValueStream {
  import opened Common
  import opened Encoding
  import opened ValueCodec

  // ---------------------------------------------------------------------------
  // Writing
  // ---------------------------------------------------------------------------

  method WriteColourOption(c: Option<Colour>, enc: Encoder)
    modifies enc
    ensures enc.buf == old(enc.buf) + EncodeColourOption(c)
  {
    match c {
      case None => enc.WriteByte(0);
      case Some(colour) =>
        enc.WriteByte(1);
        enc.WriteBytes(EncodeColour(colour));
    }
  }

  method WriteStyle(s: Style, enc: Encoder)
    modifies enc
    ensures enc.buf == old(enc.buf) + EncodeStyle(s)
  {
    hide EncodeColourOption, StyleFlags;
    enc.WriteByte(StyleFlags(s));
    WriteColourOption(s.foreground, enc);
    WriteColourOption(s.background, enc);
  }

  lemma {:induction false} AllSnoc(vs: seq<Value>, v: Value)
    ensures EncodeAll(vs + [v]) == EncodeAll(vs) + Encode(v)
  {
    hide Encode;
    if vs == [] {
      assert vs + [v] == [v] && [v][1..] == [];
      assert EncodeAll([v]) == Encode(v) + EncodeAll([]);
    } else {
      assert (vs + [v])[1..] == vs[1..] + [v];
      AllSnoc(vs[1..], v);
    }
  }

  lemma {:induction false} EntriesSnoc(es: seq<Entry>, e: Entry)
    ensures EncodeEntries(es + [e]) == EncodeEntries(es) + (EncodeString(e.key) + Encode(e.value))
  {
    hide Encode, EncodeString;
    if es == [] {
      assert es + [e] == [e] && [e][1..] == [];
      assert EncodeEntries([e]) == EncodeString(e.key) + (Encode(e.value) + EncodeEntries([]));
    } else {
      assert (es + [e])[1..] == es[1..] + [e];
      EntriesSnoc(es[1..], e);
    }
  }

  predicate IsLeaf(v: Value) {
    v.Null? || v.Bool? || v.Int? || v.Float? || v.Str? || v.Raw?
  }

  lemma Joined(a: Bytes, b: Bytes, c: Bytes, d: Bytes)
    ensures a + b + c + d == a + (b + (c + d)) && a + b + c == a + (b + c)
  {
  }

  /** `Value::encode` of a value without parts. */
  method WriteLeaf(v: Value, enc: Encoder)
    requires IsLeaf(v)
    modifies enc
    ensures enc.buf == old(enc.buf) + Encode(v)
  {
    hide EncodeString, EncodeByteArray, LittleEndian, ToUnsigned;
    ghost var start := enc.buf;
    match v {
      case Null => enc.WriteByte(0);
      case Bool(b) =>
        enc.WriteByte(1);
        enc.WriteByte(if b then 1 else 0);
        Joined(start, [1], [if b then 1 else 0], []);
      case Int(i) =>
        enc.WriteByte(2);
        enc.WriteNumber(ToUnsigned(i, 8), 8);
        Joined(start, [2], LittleEndian(ToUnsigned(i, 8), 8), []);
      case Float(bits) =>
        enc.WriteByte(3);
        enc.WriteNumber(bits, 8);
        Joined(start, [3], LittleEndian(bits, 8), []);
      case Str(s) =>
        enc.WriteByte(4);
        enc.WriteString(s);
        Joined(start, [4], EncodeString(s), []);
      case Raw(b) =>
        enc.WriteByte(5);
        enc.WriteByteArray(b);
        Joined(start, [5], EncodeByteArray(b), []);
    }
  }

  /** `Value::encode`. */
  method WriteValue(v: Value, enc: Encoder)
    modifies enc
    ensures enc.buf == old(enc.buf) + Encode(v)
    decreases v, 0
  {
    hide EncodeString, EncodeVec, EncodeEntries, EncodeTable, EncodeStyle, LittleEndian;
    ghost var start := enc.buf;
    match v {
      case Array(items) =>
        enc.WriteByte(6);
        WriteVec(items, enc);
        Joined(start, [6], EncodeVec(items), []);
      case Map(es) =>
        enc.WriteByte(7);
        enc.WriteNumber(|es|, 2);
        WriteEntries(es, enc);
        Joined(start, [7], LittleEndian(|es|, 2), EncodeEntries(es));
      case Styled(style, inner) =>
        enc.WriteByte(8);
        WriteStyle(style, enc);
        WriteValue(inner, enc);
        Joined(start, [8], EncodeStyle(style), Encode(inner));
      case Link(url, target) =>
        enc.WriteByte(9);
        enc.WriteString(url);
        WriteValue(target, enc);
        Joined(start, [9], EncodeString(url), Encode(target));
      case Tab(t) =>
        enc.WriteByte(10);
        WriteTable(t, enc);
        Joined(start, [10], EncodeTable(t), []);
      case _ => WriteLeaf(v, enc);
    }
  }

  /** The generic vector codec, at values. */
  method WriteVec(vs: seq<Value>, enc: Encoder)
    modifies enc
    ensures enc.buf == old(enc.buf) + EncodeVec(vs)
    decreases vs, 1
  {
    hide Encode, EncodeAll, LittleEndian;
    enc.WriteNumber(|vs|, 2);
    ghost var start := enc.buf;
    var i := 0;
    NothingEncoded();
    assert vs[..0] == [];
    while i < |vs|
      invariant 0 <= i <= |vs| && enc.buf == start + EncodeAll(vs[..i])
    {
      assert vs[..i + 1] == vs[..i] + [vs[i]];
      AllSnoc(vs[..i], vs[i]);
      WriteValue(vs[i], enc);
      i := i + 1;
    }
    assert vs[..i] == vs;
  }

  lemma NothingEncoded()
    ensures EncodeAll([]) == [] && EncodeEntries([]) == []
  {
  }

  /** The loop over the entries of a map. */
  method WriteEntries(es: seq<Entry>, enc: Encoder)
    modifies enc
    ensures enc.buf == old(enc.buf) + EncodeEntries(es)
    decreases es, 1
  {
    hide Encode, EncodeEntries, EncodeString;
    ghost var start := enc.buf;
    var i := 0;
    NothingEncoded();
    assert es[..0] == [];
    while i < |es|
      invariant 0 <= i <= |es| && enc.buf == start + EncodeEntries(es[..i])
    {
      assert es[..i + 1] == es[..i] + [es[i]];
      EntriesSnoc(es[..i], es[i]);
      enc.WriteString(es[i].key);
      WriteValue(es[i].value, enc);
      i := i + 1;
    }
    assert es[..i] == es;
  }

  /** `Table::encode`. */
  method WriteTable(t: Table, enc: Encoder)
    modifies enc
    ensures enc.buf == old(enc.buf) + EncodeTable(t)
    decreases t, 1
  {
    hide EncodeVec, LittleEndian;
    enc.WriteNumber(t.cols, 2);
    match t.headers {
      case NoHeaders => enc.WriteByte(0);
      case Headers(row) =>
        enc.WriteByte(1);
        WriteVec(row, enc);
    }
    WriteVec(t.cells, enc);
  }

  // ---------------------------------------------------------------------------
  // Reading
  // ---------------------------------------------------------------------------

  method ReadColour(dec: Decoder) returns (r: Result<Colour>)
    requires dec.Valid()
    modifies dec
    ensures dec.Valid() && Agrees(r, dec.Left(), ParseColour(old(dec.Left())))
  {
    var left := |dec.buf| - dec.pos;
    if left < 1 {
      return Err(Truncated);
    }
    var tag := dec.buf[dec.pos];
    if tag == 1 {
      if left < 2 {
        return Err(Truncated);
      }
      var n := dec.buf[dec.pos + 1];
      if n >= 16 {
        return Err(InvalidValue);
      }
      dec.pos := dec.pos + 2;
      return Ok(Named(n));
    } else if tag == 2 {
      if left < 2 {
        return Err(Truncated);
      }
      var p := dec.buf[dec.pos + 1];
      dec.pos := dec.pos + 2;
      return Ok(Palette(p));
    } else if tag == 3 {
      if left < 4 {
        return Err(Truncated);
      }
      var r, g, b := dec.buf[dec.pos + 1], dec.buf[dec.pos + 2], dec.buf[dec.pos + 3];
      dec.pos := dec.pos + 4;
      return Ok(Rgb(r, g, b));
    } else {
      return Err(InvalidValue);
    }
  }

  method ReadColourOption(dec: Decoder) returns (r: Result<Option<Colour>>)
    requires dec.Valid()
    modifies dec
    ensures dec.Valid() && Agrees(r, dec.Left(), ParseColourOption(old(dec.Left())))
  {
    hide ParseColour;
    if dec.pos >= |dec.buf| {
      return Err(Truncated);
    }
    var tag := dec.buf[dec.pos];
    dec.pos := dec.pos + 1;
    assert dec.Left() == old(dec.Left())[1..];
    if tag == 0 {
      return Ok(None);
    }
    var c := ReadColour(dec);
    match c {
      case Err(e) => return Err(e);
      case Ok(colour) => return Ok(Some(colour));
    }
  }

  method ReadStyle(dec: Decoder) returns (r: Result<Style>)
    requires dec.Valid()
    modifies dec
    ensures dec.Valid() && Agrees(r, dec.Left(), ParseStyle(old(dec.Left())))
  {
    hide ParseColourOption;
    if dec.pos >= |dec.buf| {
      return Err(Truncated);
    }
    var flags := dec.buf[dec.pos];
    dec.pos := dec.pos + 1;
    assert dec.Left() == old(dec.Left())[1..];
    var fg := ReadColourOption(dec);
    if fg.Err? {
      return Err(fg.error);
    }
    var bg := ReadColourOption(dec);
    if bg.Err? {
      return Err(bg.error);
    }
    return Ok(Style(fg.value, bg.value, flags % 2 == 1, flags / 2 % 2 == 1, flags / 4 % 2 == 1, flags / 8 % 2 == 1));
  }

  /** `Value::decode`, for tags of values without parts. */
  method ReadLeaf(tag: Byte, dec: Decoder) returns (r: Result<Value>)
    requires dec.Valid()
    modifies dec
    ensures dec.Valid() && Agrees(r, dec.Left(), ParseLeaf(tag, old(dec.Left())))
  {
    hide ParseString, ParseByteArray, ParseNumber;
    match tag {
      case 0 => return Ok(Null);
      case 1 =>
        var n := dec.ReadNumber(1);
        if n.Err? { return Err(n.error); }
        return Ok(Bool(n.value != 0));
      case 2 =>
        var n := dec.ReadNumber(8);
        if n.Err? { return Err(n.error); }
        return Ok(Int(ToSigned(n.value, 8)));
      case 3 =>
        var n := dec.ReadNumber(8);
        if n.Err? { return Err(n.error); }
        return Ok(Float(n.value));
      case 4 =>
        var s := dec.ReadString();
        if s.Err? { return Err(s.error); }
        return Ok(Str(s.value));
      case 5 =>
        var b := dec.ReadByteArray();
        if b.Err? { return Err(b.error); }
        return Ok(Raw(b.value));
      case _ => return Err(UnknownType);
    }
  }

  /** `Value::decode`. */
  method ReadValue(dec: Decoder) returns (r: Result<Value>)
    requires dec.Valid()
    modifies dec
    ensures dec.Valid() && Agrees(r, dec.Left(), Parse(old(dec.Left())))
    decreases |dec.Left()|, 0
  {
    hide ParseLeaf, ParseNode;
    if dec.pos >= |dec.buf| {
      return Err(Truncated);
    }
    var tag := dec.buf[dec.pos];
    dec.pos := dec.pos + 1;
    assert dec.Left() == old(dec.Left())[1..];
    if tag <= 5 {
      r := ReadLeaf(tag, dec);
    } else {
      r := ReadNode(tag, dec);
    }
  }

  /** `Value::decode`, for tags of values with parts. */
  method ReadNode(tag: Byte, dec: Decoder) returns (r: Result<Value>)
    requires dec.Valid()
    modifies dec
    ensures dec.Valid() && Agrees(r, dec.Left(), ParseNode(tag, old(dec.Left())))
    decreases |dec.Left()|, 5
  {
    hide Parse, ParseStyle, ParseString, ParseVec, ParseMap, ParseTable;
    match tag {
      case 6 =>
        var vs := ReadVec(dec);
        if vs.Err? { return Err(vs.error); }
        return Ok(Array(vs.value));
      case 7 =>
        var es := ReadMap(dec);
        if es.Err? { return Err(es.error); }
        return Ok(Map(es.value));
      case 8 =>
        var style := ReadStyle(dec);
        if style.Err? { return Err(style.error); }
        var inner := ReadValue(dec);
        if inner.Err? { return Err(inner.error); }
        return Ok(Styled(style.value, inner.value));
      case 9 =>
        var url := dec.ReadString();
        if url.Err? { return Err(url.error); }
        var target := ReadValue(dec);
        if target.Err? { return Err(target.error); }
        return Ok(Link(url.value, target.value));
      case 10 =>
        var t := ReadTable(dec);
        if t.Err? { return Err(t.error); }
        return Ok(Tab(t.value));
      case _ => return Err(UnknownType);
    }
  }

  /** Values already read, followed by the outcome of the rest. */
  function Following(vs: seq<Value>, p: Parsed<seq<Value>>): Parsed<seq<Value>> {
    match p
    case Fail(e) => Fail(e)
    case Done(more, rest) => Done(vs + more, rest)
  }

  lemma FollowingStep(vs: seq<Value>, bs: Bytes, n: nat)
    requires n > 0
    ensures Parse(bs).Fail? ==> Following(vs, ParseMany(bs, n)) == Fail(Parse(bs).error)
    ensures Parse(bs).Done? ==>
              Following(vs, ParseMany(bs, n)) == Following(vs + [Parse(bs).value], ParseMany(Parse(bs).rest, n - 1))
  {
    hide Parse;
    if Parse(bs).Done? {
      var more := ParseMany(Parse(bs).rest, n - 1);
      if more.Done? { assert vs + ([Parse(bs).value] + more.value) == (vs + [Parse(bs).value]) + more.value; }
    }
  }

  /** The generic vector codec, at values: a counted loop. */
  method ReadVec(dec: Decoder) returns (r: Result<seq<Value>>)
    requires dec.Valid()
    modifies dec
    ensures dec.Valid() && Agrees(r, dec.Left(), ParseVec(old(dec.Left())))
    decreases |dec.Left()|, 2
  {
    hide Parse, FromLittleEndian, Following, ParseMany;
    var count := dec.ReadNumber(2);
    if count.Err? { return Err(count.error); }
    ghost var start := dec.Left();
    var items: seq<Value> := [];
    var i := 0;
    NothingBefore(ParseMany(start, count.value));
    while i < count.value
      invariant 0 <= i <= count.value && dec.Valid() && |dec.Left()| <= |start|
      invariant Following(items, ParseMany(dec.Left(), count.value - i)) == ParseMany(start, count.value)
    {
      FollowingStep(items, dec.Left(), count.value - i);
      var v := ReadValue(dec);
      if v.Err? { return Err(v.error); }
      items := items + [v.value];
      i := i + 1;
    }
    FollowingEnd(items, dec.Left());
    return Ok(items);
  }

  lemma FollowingEnd(vs: seq<Value>, bs: Bytes)
    ensures Following(vs, ParseMany(bs, 0)) == Done(vs, bs)
  {
    assert vs + [] == vs;
  }

  lemma NothingBefore(p: Parsed<seq<Value>>)
    ensures Following([], p) == p
  {
    if p.Done? { assert [] + p.value == p.value; }
  }

  /** The loop that decodes and inserts the entries of a map. */
  method ReadMap(dec: Decoder) returns (r: Result<seq<Entry>>)
    requires dec.Valid()
    modifies dec
    ensures dec.Valid() && Agrees(r, dec.Left(), ParseMap(old(dec.Left())))
    decreases |dec.Left()|, 3
  {
    hide Parse, FromLittleEndian, ParseString, Insert;
    var count := dec.ReadNumber(2);
    if count.Err? { return Err(count.error); }
    ghost var start := dec.Left();
    var es: seq<Entry> := [];
    var i := 0;
    while i < count.value
      invariant 0 <= i <= count.value && dec.Valid() && |dec.Left()| <= |start|
      invariant ParseEntries(dec.Left(), count.value - i, es) == ParseEntries(start, count.value, [])
    {
      var key := dec.ReadString();
      if key.Err? { return Err(key.error); }
      var v := ReadValue(dec);
      if v.Err? { return Err(v.error); }
      es := Insert(es, Entry(key.value, v.value));
      i := i + 1;
    }
    return Ok(es);
  }

  /** `Table::decode`, with its checks. */
  method ReadTable(dec: Decoder) returns (r: Result<Table>)
    requires dec.Valid()
    modifies dec
    ensures dec.Valid() && Agrees(r, dec.Left(), ParseTable(old(dec.Left())))
    decreases |dec.Left()|, 4
  {
    hide ParseVec, FromLittleEndian, ParseHeaders;
    var cols := dec.ReadNumber(2);
    if cols.Err? { return Err(cols.error); }
    var headers := ReadHeaders(dec);
    if headers.Err? { return Err(headers.error); }
    var cells := ReadVec(dec);
    if cells.Err? { return Err(cells.error); }
    if cols.value == 0 && cells.value != [] {
      return Err(InvalidValue);
    }
    if headers.value.Headers? && |headers.value.row| != cols.value {
      return Err(InvalidValue);
    }
    if cols.value > 0 && |cells.value| % cols.value != 0 {
      return Err(InvalidValue);
    }
    return Ok(Table(cols.value, headers.value, cells.value));
  }

  method ReadHeaders(dec: Decoder) returns (r: Result<Headers>)
    requires dec.Valid()
    modifies dec
    ensures dec.Valid() && Agrees(r, dec.Left(), ParseHeaders(old(dec.Left())))
    decreases |dec.Left()|, 3
  {
    hide ParseVec;
    if dec.pos >= |dec.buf| {
      return Err(Truncated);
    }
    var tag := dec.buf[dec.pos];
    dec.pos := dec.pos + 1;
    assert dec.Left() == old(dec.Left())[1..];
    if tag == 0 {
      return Ok(NoHeaders);
    }
    var row := ReadVec(dec);
    if row.Err? { return Err(row.error); }
    return Ok(Headers(row.value));
  }
}
