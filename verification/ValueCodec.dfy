/** Structured pipeline values and their recursive encoding (`panda-abi/src/value.rs`,
    and the style part of `panda-abi/src/terminal.rs`). */
module ValueCodec {
  import opened Common
  import opened Encoding

  datatype Colour = Named(index: nat) | Palette(index: nat) | Rgb(r: nat, g: nat, b: nat)

  datatype Style = Style(foreground: Option<Colour>, background: Option<Colour>,
                         bold: bool, italic: bool, underline: bool, strikethrough: bool)

  /** Strings are byte sequences; a float is its 64 bits; a map is its entries in
      increasing key order, as the tree map iterates them. */
  datatype Value =
    | Null
    | Bool(b: bool)
    | Int(i: int)
    | Float(bits: nat)
    | Str(s: Bytes)
    | Raw(bytes: Bytes)
    | Array(items: seq<Value>)
    | Map(entries: seq<Entry>)
    | Styled(style: Style, inner: Value)
    | Link(url: Bytes, target: Value)
    | Tab(table: Table)

  datatype Entry = Entry(key: Bytes, value: Value)

  datatype Headers = NoHeaders | Headers(row: seq<Value>)

  datatype Table = Table(cols: nat, headers: Headers, cells: seq<Value>)

  // ---------------------------------------------------------------------------
  // Colours and styles
  // ---------------------------------------------------------------------------

  predicate FitsColour(c: Colour) {
    match c
    case Named(n) => n < 16
    case Palette(p) => p < 256
    case Rgb(r, g, b) => r < 256 && g < 256 && b < 256
  }

  function EncodeColour(c: Colour): Bytes {
    match c
    case Named(n) => [1, n % 256]
    case Palette(p) => [2, p % 256]
    case Rgb(r, g, b) => [3, r % 256, g % 256, b % 256]
  }

  function ParseColour(bs: Bytes): (r: Parsed<Colour>)
    ensures r.Done? ==> FitsColour(r.value) && Suffix(r.rest, bs) && |r.rest| < |bs|
  {
    if |bs| < 1 then Fail(Truncated)
    else if bs[0] == 1 then
      if |bs| < 2 then Fail(Truncated) else if bs[1] >= 16 then Fail(InvalidValue) else Done(Named(bs[1]), bs[2..])
    else if bs[0] == 2 then
      if |bs| < 2 then Fail(Truncated) else Done(Palette(bs[1]), bs[2..])
    else if bs[0] == 3 then
      if |bs| < 4 then Fail(Truncated) else Done(Rgb(bs[1], bs[2], bs[3]), bs[4..])
    else Fail(InvalidValue)
  }

  lemma ColourRoundTrip(c: Colour, rest: Bytes)
    requires FitsColour(c)
    ensures ParseColour(EncodeColour(c) + rest) == Done(c, rest)
  {
    var bs := EncodeColour(c) + rest;
    assert bs[|EncodeColour(c)|..] == rest;
  }

  function EncodeColourOption(c: Option<Colour>): Bytes {
    match c
    case None => [0]
    case Some(c) => [1] + EncodeColour(c)
  }

  function ParseColourOption(bs: Bytes): (r: Parsed<Option<Colour>>)
    ensures r.Done? ==> (r.value.Some? ==> FitsColour(r.value.value)) && Suffix(r.rest, bs) && |r.rest| < |bs|
  {
    if |bs| < 1 then Fail(Truncated)
    else if bs[0] == 0 then Done(None, bs[1..])
    else match ParseColour(bs[1..])
         case Fail(e) => Fail(e)
         case Done(c, rest) => SuffixTrans(rest, bs[1..], bs); Done(Some(c), rest)
  }

  lemma ColourOptionRoundTrip(c: Option<Colour>, rest: Bytes)
    requires c.Some? ==> FitsColour(c.value)
    ensures ParseColourOption(EncodeColourOption(c) + rest) == Done(c, rest)
  {
    var bs := EncodeColourOption(c) + rest;
    match c {
      case None => assert bs[1..] == rest;
      case Some(col) =>
        assert bs[1..] == EncodeColour(col) + rest;
        ColourRoundTrip(col, rest);
    }
  }

  function Bit(b: bool, weight: nat): nat {
    if b then weight else 0
  }

  function StyleFlags(s: Style): Byte {
    Bit(s.bold, 1) + Bit(s.italic, 2) + Bit(s.underline, 4) + Bit(s.strikethrough, 8)
  }

  predicate FitsStyle(s: Style) {
    (s.foreground.Some? ==> FitsColour(s.foreground.value)) && (s.background.Some? ==> FitsColour(s.background.value))
  }

  function EncodeStyle(s: Style): Bytes {
    [StyleFlags(s)] + EncodeColourOption(s.foreground) + EncodeColourOption(s.background)
  }

  function ParseStyle(bs: Bytes): (r: Parsed<Style>)
    ensures r.Done? ==> FitsStyle(r.value) && Suffix(r.rest, bs) && |r.rest| < |bs|
  {
    if |bs| < 1 then Fail(Truncated)
    else
      var flags := bs[0];
      match ParseColourOption(bs[1..])
      case Fail(e) => Fail(e)
      case Done(fg, rest) =>
        match ParseColourOption(rest)
        case Fail(e) => Fail(e)
        case Done(bg, rest') =>
          SuffixTrans(rest', rest, bs[1..]);
          SuffixTrans(rest', bs[1..], bs);
          Done(Style(fg, bg, flags % 2 == 1, flags / 2 % 2 == 1, flags / 4 % 2 == 1, flags / 8 % 2 == 1), rest')
  }

  lemma FlagBits(s: Style)
    ensures var n := StyleFlags(s);
            && (n % 2 == 1) == s.bold && (n / 2 % 2 == 1) == s.italic
            && (n / 4 % 2 == 1) == s.underline && (n / 8 % 2 == 1) == s.strikethrough
  {
  }

  lemma StyleRoundTrip(s: Style, rest: Bytes)
    requires FitsStyle(s)
    ensures ParseStyle(EncodeStyle(s) + rest) == Done(s, rest)
  {
    FlagBits(s);
    hide ParseColourOption, EncodeColourOption, StyleFlags;
    var bg := EncodeColourOption(s.background) + rest;
    assert (EncodeStyle(s) + rest)[1..] == EncodeColourOption(s.foreground) + bg;
    ColourOptionRoundTrip(s.foreground, bg);
    ColourOptionRoundTrip(s.background, rest);
  }

  // ---------------------------------------------------------------------------
  // What can be encoded faithfully
  // ---------------------------------------------------------------------------

  predicate FitsString(s: Bytes) {
    IsUtf8(s) && |s| < 0x10000
  }

  /** Byte order of strings. */
  predicate Less(a: Bytes, b: Bytes) {
    b != [] && (a == [] || a[0] < b[0] || (a[0] == b[0] && Less(a[1..], b[1..])))
  }

  predicate Increasing(es: seq<Entry>) {
    forall i, j :: 0 <= i < j < |es| ==> Less(es[i].key, es[j].key)
  }

  /** Header and cells fill whole rows of the table. */
  predicate Rectangular(t: Table) {
    && (t.headers.Headers? ==> |t.headers.row| == t.cols)
    && (if t.cols == 0 then t.cells == [] else |t.cells| % t.cols == 0)
  }

  predicate Fits(v: Value) {
    match v
    case Null => true
    case Bool(_) => true
    case Int(i) => FitsSigned(i, 8)
    case Float(bits) => bits < Limit(8)
    case Str(s) => FitsString(s)
    case Raw(b) => |b| < 0x1_0000_0000
    case Array(items) => |items| < 0x10000 && FitsAll(items)
    case Map(es) => |es| < 0x10000 && Increasing(es) && FitsEntries(es)
    case Styled(style, inner) => FitsStyle(style) && Fits(inner)
    case Link(url, target) => FitsString(url) && Fits(target)
    case Tab(t) =>
      && Rectangular(t) && t.cols < 0x10000 && |t.cells| < 0x10000 && FitsAll(t.cells)
      && (t.headers.Headers? ==> FitsAll(t.headers.row))
  }

  predicate FitsAll(vs: seq<Value>) {
    vs == [] || (Fits(vs[0]) && FitsAll(vs[1..]))
  }

  predicate FitsEntries(es: seq<Entry>) {
    es == [] || (FitsString(es[0].key) && Fits(es[0].value) && FitsEntries(es[1..]))
  }

  // ---------------------------------------------------------------------------
  // Encoding
  // ---------------------------------------------------------------------------

  function Encode(v: Value): (bs: Bytes)
    ensures bs != []
  {
    match v
    case Null => [0]
    case Bool(b) => [1, if b then 1 else 0]
    case Int(i) => [2] + LittleEndian(ToUnsigned(i, 8), 8)
    case Float(bits) => [3] + LittleEndian(bits, 8)
    case Str(s) => [4] + EncodeString(s)
    case Raw(b) => [5] + EncodeByteArray(b)
    case Array(items) => [6] + EncodeVec(items)
    case Map(es) => [7] + (LittleEndian(|es|, 2) + EncodeEntries(es))
    case Styled(style, inner) => [8] + (EncodeStyle(style) + Encode(inner))
    case Link(url, target) => [9] + (EncodeString(url) + Encode(target))
    case Tab(t) => [10] + EncodeTable(t)
  }

  function EncodeAll(vs: seq<Value>): Bytes
    decreases vs, 0
  {
    if vs == [] then [] else Encode(vs[0]) + EncodeAll(vs[1..])
  }

  function EncodeVec(vs: seq<Value>): Bytes
    decreases vs, 1
  {
    LittleEndian(|vs|, 2) + EncodeAll(vs)
  }

  function EncodeEntries(es: seq<Entry>): Bytes {
    if es == [] then [] else EncodeString(es[0].key) + (Encode(es[0].value) + EncodeEntries(es[1..]))
  }

  function EncodeHeaders(hs: Headers): Bytes {
    match hs
    case NoHeaders => [0]
    case Headers(row) => [1] + EncodeVec(row)
  }

  function EncodeTable(t: Table): Bytes {
    LittleEndian(t.cols, 2) + (EncodeHeaders(t.headers) + EncodeVec(t.cells))
  }

  // ---------------------------------------------------------------------------
  // Decoding
  // ---------------------------------------------------------------------------

  /** Reading consumed something, and only from the front. */
  ghost predicate Progress(rest: Bytes, bs: Bytes) {
    Suffix(rest, bs) && |rest| < |bs|
  }

  /** Insertion into the tree map: a later entry replaces one with the same key. */
  function Insert(es: seq<Entry>, e: Entry): seq<Entry> {
    if es == [] then [e]
    else if es[0].key == e.key then [e] + es[1..]
    else if Less(e.key, es[0].key) then [e] + es
    else [es[0]] + Insert(es[1..], e)
  }

  /** Values without parts, by tag. */
  function ParseLeaf(tag: Byte, bs: Bytes): (r: Parsed<Value>)
    ensures r.Done? ==> Suffix(r.rest, bs)
  {
    match tag
    case 0 => Done(Null, bs)
    case 1 =>
      (match ParseNumber(bs, 1)
       case Fail(e) => Fail(e)
       case Done(n, rest) => Done(Bool(n != 0), rest))
    case 2 =>
      (match ParseNumber(bs, 8)
       case Fail(e) => Fail(e)
       case Done(n, rest) => Done(Int(ToSigned(n, 8)), rest))
    case 3 =>
      (match ParseNumber(bs, 8)
       case Fail(e) => Fail(e)
       case Done(n, rest) => Done(Float(n), rest))
    case 4 =>
      (match ParseString(bs)
       case Fail(e) => Fail(e)
       case Done(s, rest) => Done(Str(s), rest))
    case 5 =>
      (match ParseByteArray(bs)
       case Fail(e) => Fail(e)
       case Done(b, rest) => Done(Raw(b), rest))
    case _ => Fail(UnknownType)
  }

  function Parse(bs: Bytes): (r: Parsed<Value>)
    ensures r.Done? ==> Progress(r.rest, bs)
    decreases |bs|, 0, 0
  {
    if bs == [] then Fail(Truncated)
    else
      var r := if bs[0] <= 5 then ParseLeaf(bs[0], bs[1..]) else ParseNode(bs[0], bs[1..]);
      if r.Done? then (SuffixTrans(r.rest, bs[1..], bs); r) else r
  }

  /** Values with parts, by tag. */
  function ParseNode(tag: Byte, bs: Bytes): (r: Parsed<Value>)
    ensures r.Done? ==> Suffix(r.rest, bs)
    decreases |bs|, 5, 0
  {
    match tag
    case 6 =>
      (match ParseVec(bs)
       case Fail(e) => Fail(e)
       case Done(vs, rest) => Done(Array(vs), rest))
    case 7 =>
      (match ParseMap(bs)
       case Fail(e) => Fail(e)
       case Done(es, rest) => Done(Map(es), rest))
    case 8 =>
      (match ParseStyle(bs)
       case Fail(e) => Fail(e)
       case Done(style, rest) =>
         match Parse(rest)
         case Fail(e) => Fail(e)
         case Done(v, rest') => SuffixTrans(rest', rest, bs); Done(Styled(style, v), rest'))
    case 9 =>
      (match ParseString(bs)
       case Fail(e) => Fail(e)
       case Done(url, rest) =>
         match Parse(rest)
         case Fail(e) => Fail(e)
         case Done(v, rest') => SuffixTrans(rest', rest, bs); Done(Link(url, v), rest'))
    case 10 =>
      (match ParseTable(bs)
       case Fail(e) => Fail(e)
       case Done(t, rest) => Done(Tab(t), rest))
    case _ => Fail(UnknownType)
  }

  function ParseMap(bs: Bytes): (r: Parsed<seq<Entry>>)
    ensures r.Done? ==> Suffix(r.rest, bs)
    decreases |bs|, 3, 0
  {
    match ParseNumber(bs, 2)
    case Fail(e) => Fail(e)
    case Done(n, rest) =>
      match ParseEntries(rest, n, [])
      case Fail(e) => Fail(e)
      case Done(es, rest') => SuffixTrans(rest', rest, bs); Done(es, rest')
  }

  function ParseMany(bs: Bytes, count: nat): (r: Parsed<seq<Value>>)
    ensures r.Done? ==> Suffix(r.rest, bs) && |r.value| == count
    decreases |bs|, 1, count
  {
    if count == 0 then Done([], bs)
    else
      match Parse(bs)
      case Fail(e) => Fail(e)
      case Done(v, rest) =>
        match ParseMany(rest, count - 1)
        case Fail(e) => Fail(e)
        case Done(vs, rest') => SuffixTrans(rest', rest, bs); Done([v] + vs, rest')
  }

  function ParseVec(bs: Bytes): (r: Parsed<seq<Value>>)
    ensures r.Done? ==> Progress(r.rest, bs) && |r.value| < 0x10000
    decreases |bs|, 2, 0
  {
    match ParseNumber(bs, 2)
    case Fail(e) => Fail(e)
    case Done(n, rest) =>
      assert Limit(2) == 0x10000;
      match ParseMany(rest, n)
      case Fail(e) => Fail(e)
      case Done(vs, rest') => SuffixTrans(rest', rest, bs); Done(vs, rest')
  }

  function ParseEntries(bs: Bytes, count: nat, es: seq<Entry>): (r: Parsed<seq<Entry>>)
    ensures r.Done? ==> Suffix(r.rest, bs)
    decreases |bs|, 1, count
  {
    if count == 0 then Done(es, bs)
    else
      match ParseString(bs)
      case Fail(e) => Fail(e)
      case Done(key, rest) =>
        match Parse(rest)
        case Fail(e) => Fail(e)
        case Done(v, rest') =>
          SuffixTrans(rest', rest, bs);
          match ParseEntries(rest', count - 1, Insert(es, Entry(key, v)))
          case Fail(e) => Fail(e)
          case Done(all, rest'') => SuffixTrans(rest'', rest', bs); Done(all, rest'')
  }

  function ParseHeaders(bs: Bytes): (r: Parsed<Headers>)
    ensures r.Done? ==> Progress(r.rest, bs)
    decreases |bs|, 3, 0
  {
    if bs == [] then Fail(Truncated)
    else if bs[0] == 0 then Done(NoHeaders, bs[1..])
    else
      match ParseVec(bs[1..])
      case Fail(e) => Fail(e)
      case Done(vs, rest) => SuffixTrans(rest, bs[1..], bs); Done(Headers(vs), rest)
  }

  /** Only rectangular tables are accepted. */
  function ParseTable(bs: Bytes): (r: Parsed<Table>)
    ensures r.Done? ==> Progress(r.rest, bs) && Rectangular(r.value)
    decreases |bs|, 3, 0
  {
    match ParseNumber(bs, 2)
    case Fail(e) => Fail(e)
    case Done(cols, rest) =>
      match ParseHeaders(rest)
      case Fail(e) => Fail(e)
      case Done(hs, rest') =>
        SuffixTrans(rest', rest, bs);
        match ParseVec(rest')
        case Fail(e) => Fail(e)
        case Done(cells, rest'') =>
          SuffixTrans(rest'', rest', bs);
          if cols == 0 && cells != [] then Fail(InvalidValue)
          else if hs.Headers? && |hs.row| != cols then Fail(InvalidValue)
          else if cols > 0 && |cells| % cols != 0 then Fail(InvalidValue)
          else Done(Table(cols, hs, cells), rest'')
  }

  // ---------------------------------------------------------------------------
  // Key order
  // ---------------------------------------------------------------------------

  lemma {:induction false} LessAsymmetric(a: Bytes, b: Bytes)
    requires Less(a, b)
    ensures !Less(b, a) && a != b
  {
    if a != [] && a[0] == b[0] { LessAsymmetric(a[1..], b[1..]); }
  }

  lemma {:induction false} LessTransitive(a: Bytes, b: Bytes, c: Bytes)
    requires Less(a, b) && Less(b, c)
    ensures Less(a, c)
  {
    if a != [] && a[0] == b[0] == c[0] { LessTransitive(a[1..], b[1..], c[1..]); }
  }

  lemma {:induction false} LessTotal(a: Bytes, b: Bytes)
    ensures Less(a, b) || Less(b, a) || a == b
  {
    if a != [] && b != [] && a[0] == b[0] {
      LessTotal(a[1..], b[1..]);
      assert a == [a[0]] + a[1..] && b == [b[0]] + b[1..];
    }
  }

  /** Inserting a key above all others appends. */
  lemma {:induction false} InsertLast(es: seq<Entry>, e: Entry)
    requires forall d <- es :: Less(d.key, e.key)
    ensures Insert(es, e) == es + [e]
  {
    if es != [] {
      assert es[0] in es;
      LessAsymmetric(es[0].key, e.key);
      InsertLast(es[1..], e);
    }
  }

  /** A key below all others is the smallest after an insertion too. */
  lemma {:induction false} InsertKeys(es: seq<Entry>, e: Entry, d: Entry)
    requires d in Insert(es, e)
    ensures d == e || d in es
  {
    if es != [] && es[0].key != e.key && !Less(e.key, es[0].key) && d != es[0] {
      InsertKeys(es[1..], e, d);
    }
  }

  /** An insertion adds its entry and drops only one with the same key. */
  lemma {:induction false} InsertMembers(es: seq<Entry>, e: Entry, d: Entry)
    requires Increasing(es)
    ensures d in Insert(es, e) <==> d == e || (d in es && d.key != e.key)
  {
    if es != [] {
      var first, tail := es[0], es[1..];
      assert es == [first] + tail && Increasing(tail);
      forall c | c in tail
        ensures Less(first.key, c.key)
      {
        var i :| 0 <= i < |tail| && tail[i] == c;
        assert c == es[i + 1];
      }
      if d in tail { LessAsymmetric(first.key, d.key); }
      if first.key == e.key {
      } else if Less(e.key, first.key) {
        LessAsymmetric(e.key, first.key);
        if d in tail { LessTransitive(e.key, first.key, d.key); LessAsymmetric(e.key, d.key); }
      } else {
        InsertMembers(tail, e, d);
      }
    }
  }

  /** Byte order: the shorter of two that agree, else the one with the smaller byte where
      they first differ. */
  lemma {:induction false} LessAtFirstDifference(a: Bytes, b: Bytes, k: nat)
    requires k <= |a| && k <= |b| && a[..k] == b[..k] && (k < |a| && k < |b| ==> a[k] != b[k])
    ensures Less(a, b) <==> k < |b| && (k == |a| || a[k] < b[k])
  {
    if k > 0 {
      assert a[..k][0] == b[..k][0];
      assert a[1..][..k - 1] == a[..k][1..] && b[1..][..k - 1] == b[..k][1..];
      LessAtFirstDifference(a[1..], b[1..], k - 1);
    }
  }

  /** Which value an encoding is of is in its first byte. */
  lemma EncodedTag(v: Value)
    ensures Encode(v)[0] ==
            match v
            case Null => 0
            case Bool(_) => 1
            case Int(_) => 2
            case Float(_) => 3
            case Str(_) => 4
            case Raw(_) => 5
            case Array(_) => 6
            case Map(_) => 7
            case Styled(_, _) => 8
            case Link(_, _) => 9
            case Tab(_) => 10
  {
    hide LittleEndian, EncodeString, EncodeByteArray, EncodeVec, EncodeEntries, EncodeStyle, EncodeTable;
  }

  /** Where the parts of a plain value are: numbers by their digits, text and bytes after
      their length. */
  lemma LeafLayout(v: Value, i: nat)
    requires i < 8
    ensures var bs := Encode(v);
            match v
            case Null => bs == [0]
            case Bool(b) => bs == [1, if b then 1 else 0]
            case Int(n) =>
              |bs| == 9 && (FitsSigned(n, 8) ==> bs[1 + i] == (if n < 0 then Limit(8) + n else n) / Limit(i) % 256)
            case Float(bits) => |bs| == 9 && bs[1 + i] == bits / Limit(i) % 256
            case Str(s) => |s| < 0x10000 ==> bs == [4, |s| % 0x100, |s| / 0x100] + s
            case Raw(b) => |bs| == 5 + |b| && bs[5..] == b && (i < 4 ==> bs[1 + i] == |b| / Limit(i) % 256)
            case _ => true
  {
    hide EncodeString, LittleEndian, EncodeVec, EncodeEntries, EncodeTable, EncodeStyle;
    match v {
      case Int(n) =>
        LittleEndianByte(ToUnsigned(n, 8), 8, i);
        if FitsSigned(n, 8) { TwosComplement(n, 8); }
      case Float(bits) => LittleEndianByte(bits, 8, i);
      case Str(s) => if |s| < 0x10000 { StringLayout(s); }
      case Raw(b) => if i < 4 { LittleEndianByte(|b|, 4, i); }
      case _ =>
    }
  }

  /** Where the parts of a compound value are: elements after their count, a style before
      what it is of, a link before its target, columns and headers before the cells. */
  lemma NodeLayout(v: Value)
    ensures var bs := Encode(v);
            match v
            case Array(vs) => |vs| < 0x10000 ==> bs == [6, |vs| % 0x100, |vs| / 0x100] + EncodeAll(vs)
            case Map(es) => |es| < 0x10000 ==> bs == [7, |es| % 0x100, |es| / 0x100] + EncodeEntries(es)
            case Styled(style, inner) =>
              bs == [8, StyleFlags(style)] + EncodeColourOption(style.foreground)
                    + EncodeColourOption(style.background) + Encode(inner)
            case Link(url, target) =>
              |url| < 0x10000 ==> bs == [9, |url| % 0x100, |url| / 0x100] + url + Encode(target)
            case Tab(t) =>
              t.cols < 0x10000 ==>
                bs == [10, t.cols % 0x100, t.cols / 0x100] + EncodeHeaders(t.headers) + EncodeVec(t.cells)
            case _ => true
  {
    hide EncodeAll, EncodeEntries, EncodeHeaders, EncodeColourOption, StyleFlags, LittleEndian, EncodeString;
    match v {
      case Array(vs) => if |vs| < 0x10000 { TwoBytes(|vs|); }
      case Map(es) => if |es| < 0x10000 { TwoBytes(|es|); }
      case Link(url, target) => if |url| < 0x10000 { StringLayout(url); }
      case Tab(t) => if t.cols < 0x10000 { TwoBytes(t.cols); }
      case _ =>
    }
  }

  /** A colour is its kind and its numbers. */
  lemma ColourLayout(c: Colour)
    requires FitsColour(c)
    ensures EncodeColourOption(Some(c)) == [1] + match c
                                                 case Named(n) => [1, n]
                                                 case Palette(p) => [2, p]
                                                 case Rgb(r, g, b) => [3, r, g, b]
    ensures EncodeColourOption(None) == [0]
  {
  }

  /** And so it is when any bytes are read. */
  lemma DecodedTag(bs: Bytes)
    requires Parse(bs).Done?
    ensures bs != [] && Encode(Parse(bs).value)[0] == bs[0] <= 10
  {
    hide ParseNumber, ParseString, ParseByteArray, ParseVec, ParseMap, ParseStyle, ParseTable, ToSigned;
    EncodedTag(Parse(bs).value);
  }

  /** Any byte but zero is read as true. */
  lemma NonzeroIsTrue(b: Byte, rest: Bytes)
    ensures Parse([1, b] + rest) == Done(Bool(b != 0), rest)
  {
    var bs := [1, b] + rest;
    assert bs[1..] == [b] + rest && ([b] + rest)[1..] == rest && ([b] + rest)[..1] == [b];
    assert [b][1..] == [];
    assert FromLittleEndian([b]) == b as int + 256 * FromLittleEndian([]);
  }

  /** The style byte: bold, italic, underline, strikethrough from the lowest bit up. */
  lemma StyleBits(s: Style)
    ensures var f := StyleFlags(s);
            && (f % 2 == 1 <==> s.bold) && (f / 2 % 2 == 1 <==> s.italic)
            && (f / 4 % 2 == 1 <==> s.underline) && (f / 8 % 2 == 1 <==> s.strikethrough) && f < 16
  {
  }

  lemma {:induction false} InsertIncreasing(es: seq<Entry>, e: Entry)
    requires Increasing(es)
    ensures Increasing(Insert(es, e)) && |Insert(es, e)| <= |es| + 1
  {
    if es != [] {
      var tail := es[1..];
      assert forall d <- tail :: Less(es[0].key, d.key);
      if es[0].key == e.key {
      } else if Less(e.key, es[0].key) {
        forall d <- tail
          ensures Less(e.key, d.key)
        {
          LessTransitive(e.key, es[0].key, d.key);
        }
      } else {
        LessTotal(e.key, es[0].key);
        InsertIncreasing(tail, e);
        var more := Insert(tail, e);
        forall d <- more
          ensures Less(es[0].key, d.key)
        {
          InsertKeys(tail, e, d);
        }
      }
    }
  }

  // ---------------------------------------------------------------------------
  // Round trip
  // ---------------------------------------------------------------------------

  lemma LeafRoundTrip(v: Value, rest: Bytes)
    requires Fits(v) && (v.Null? || v.Bool? || v.Int? || v.Float? || v.Str? || v.Raw?)
    ensures Parse(Encode(v) + rest) == Done(v, rest)
  {
    hide LittleEndian, FromLittleEndian, IsUtf8, ParseString, EncodeString, ParseByteArray, EncodeByteArray,
         ParseNumber;
    var bs := Encode(v) + rest;
    assert bs[1..] == Encode(v)[1..] + rest;
    match v {
      case Null => assert bs[1..] == rest;
      case Bool(b) =>
        NumberFits(if b then 1 else 0, 1, rest);
        OneByte(if b then 1 else 0);
      case Int(i) =>
        SignedRoundTrip(i, 8);
        NumberFits(ToUnsigned(i, 8), 8, rest);
      case Float(bits) => NumberFits(bits, 8, rest);
      case Str(s) => StringFits(s, rest);
      case Raw(b) => ByteArrayRoundTrip(b, rest);
    }
  }

  lemma OneByte(b: Byte)
    ensures LittleEndian(b, 1) == [b] && Limit(1) == 256
  {
  }

  /** Decoding an encoding followed by anything gives the value back and stops exactly
      at what follows. */
  lemma {:induction false} RoundTrip(v: Value, rest: Bytes)
    requires Fits(v)
    ensures Parse(Encode(v) + rest) == Done(v, rest)
    decreases v, 1
  {
    if v.Null? || v.Bool? || v.Int? || v.Float? || v.Str? || v.Raw? {
      LeafRoundTrip(v, rest);
    } else {
      NodeRoundTrip(v, rest);
    }
  }

  lemma {:induction false} NodeRoundTrip(v: Value, rest: Bytes)
    requires Fits(v) && (v.Array? || v.Map? || v.Styled? || v.Link? || v.Tab?)
    ensures Parse(Encode(v) + rest) == Done(v, rest)
    decreases v, 0
  {
    hide ParseString, EncodeString, ParseStyle, EncodeStyle, ParseVec, EncodeVec, ParseMap, ParseTable, EncodeTable,
         ParseLeaf, IsUtf8, LittleEndian, EncodeEntries;
    var bs := Encode(v) + rest;
    assert bs[1..] == Encode(v)[1..] + rest;
    match v {
      case Array(items) => VecRoundTrip(items, rest);
      case Map(es) => MapRoundTrip(es, rest);
      case Styled(style, inner) => StyledRoundTrip(style, inner, rest);
      case Link(url, target) => LinkRoundTrip(url, target, rest);
      case Tab(t) => TableRoundTrip(t, rest);
    }
  }

  lemma {:induction false} StyledRoundTrip(style: Style, inner: Value, rest: Bytes)
    requires FitsStyle(style) && Fits(inner)
    ensures ParseNode(8, EncodeStyle(style) + Encode(inner) + rest) == Done(Styled(style, inner), rest)
    decreases inner, 2
  {
    hide ParseStyle, EncodeStyle, Parse, Encode;
    assert EncodeStyle(style) + Encode(inner) + rest == EncodeStyle(style) + (Encode(inner) + rest);
    StyleRoundTrip(style, Encode(inner) + rest);
    RoundTrip(inner, rest);
  }

  lemma {:induction false} LinkRoundTrip(url: Bytes, target: Value, rest: Bytes)
    requires FitsString(url) && Fits(target)
    ensures ParseNode(9, EncodeString(url) + Encode(target) + rest) == Done(Link(url, target), rest)
    decreases target, 2
  {
    hide ParseString, EncodeString, Parse, Encode, IsUtf8;
    assert EncodeString(url) + Encode(target) + rest == EncodeString(url) + (Encode(target) + rest);
    StringFits(url, Encode(target) + rest);
    RoundTrip(target, rest);
  }

  lemma {:induction false} AllRoundTrip(vs: seq<Value>, rest: Bytes)
    requires FitsAll(vs)
    ensures ParseMany(EncodeAll(vs) + rest, |vs|) == Done(vs, rest)
    decreases vs, 0
  {
    hide Parse, Encode, Fits;
    if vs == [] {
      assert EncodeAll(vs) + rest == rest;
    } else {
      assert EncodeAll(vs) + rest == Encode(vs[0]) + (EncodeAll(vs[1..]) + rest);
      RoundTrip(vs[0], EncodeAll(vs[1..]) + rest);
      AllRoundTrip(vs[1..], rest);
      assert [vs[0]] + vs[1..] == vs;
    }
  }

  lemma {:induction false} VecRoundTrip(vs: seq<Value>, rest: Bytes)
    requires FitsAll(vs) && |vs| < 0x10000
    ensures ParseVec(EncodeVec(vs) + rest) == Done(vs, rest)
    decreases vs, 1
  {
    hide LittleEndian, FromLittleEndian, ParseMany, EncodeAll, FitsAll, ParseNumber;
    assert EncodeVec(vs) + rest == LittleEndian(|vs|, 2) + (EncodeAll(vs) + rest);
    assert Limit(2) == 0x10000;
    NumberFits(|vs|, 2, EncodeAll(vs) + rest);
    AllRoundTrip(vs, rest);
  }

  lemma NextKey(before: seq<Entry>, es: seq<Entry>)
    requires Increasing(before + es) && es != []
    ensures forall d <- before :: Less(d.key, es[0].key)
  {
    forall d <- before
      ensures Less(d.key, es[0].key)
    {
      var i :| 0 <= i < |before| && before[i] == d;
      assert (before + es)[i] == d && (before + es)[|before|] == es[0];
    }
  }

  lemma {:induction false} EntriesRoundTrip(es: seq<Entry>, before: seq<Entry>, rest: Bytes)
    requires FitsEntries(es) && Increasing(before + es)
    ensures ParseEntries(EncodeEntries(es) + rest, |es|, before) == Done(before + es, rest)
    decreases es, 0
  {
    hide Parse, Encode, Fits, ParseString, EncodeString, IsUtf8, Less;
    if es == [] {
      assert EncodeEntries(es) + rest == rest && before + es == before;
    } else {
      var e, tail := es[0], EncodeEntries(es[1..]) + rest;
      assert EncodeEntries(es) + rest == EncodeString(e.key) + (Encode(e.value) + tail);
      StringFits(e.key, Encode(e.value) + tail);
      RoundTrip(e.value, tail);
      NextKey(before, es);
      InsertLast(before, e);
      assert (before + [e]) + es[1..] == before + es;
      EntriesRoundTrip(es[1..], before + [e], rest);
    }
  }

  lemma {:induction false} MapRoundTrip(es: seq<Entry>, rest: Bytes)
    requires FitsEntries(es) && Increasing(es) && |es| < 0x10000
    ensures ParseMap(LittleEndian(|es|, 2) + EncodeEntries(es) + rest) == Done(es, rest)
    decreases es, 1
  {
    hide LittleEndian, FromLittleEndian, ParseEntries, EncodeEntries, FitsEntries, ParseNumber;
    assert LittleEndian(|es|, 2) + EncodeEntries(es) + rest == LittleEndian(|es|, 2) + (EncodeEntries(es) + rest);
    assert Limit(2) == 0x10000;
    NumberFits(|es|, 2, EncodeEntries(es) + rest);
    assert [] + es == es;
    EntriesRoundTrip(es, [], rest);
  }

  lemma {:induction false} HeadersRoundTrip(hs: Headers, rest: Bytes)
    requires hs.Headers? ==> FitsAll(hs.row) && |hs.row| < 0x10000
    ensures ParseHeaders(EncodeHeaders(hs) + rest) == Done(hs, rest)
    decreases hs
  {
    hide ParseVec, EncodeVec, FitsAll;
    var bs := EncodeHeaders(hs) + rest;
    match hs {
      case NoHeaders => assert bs[1..] == rest;
      case Headers(row) =>
        assert bs[1..] == EncodeVec(row) + rest;
        VecRoundTrip(row, rest);
    }
  }

  lemma {:induction false} TableRoundTrip(t: Table, rest: Bytes)
    requires Fits(Tab(t))
    ensures ParseTable(EncodeTable(t) + rest) == Done(t, rest)
    decreases t
  {
    hide LittleEndian, FromLittleEndian, ParseVec, EncodeVec, FitsAll, ParseNumber, ParseHeaders, EncodeHeaders;
    var cells := EncodeVec(t.cells) + rest;
    assert EncodeTable(t) + rest == LittleEndian(t.cols, 2) + (EncodeHeaders(t.headers) + cells);
    assert Limit(2) == 0x10000;
    NumberFits(t.cols, 2, EncodeHeaders(t.headers) + cells);
    HeadersRoundTrip(t.headers, cells);
    VecRoundTrip(t.cells, rest);
  }

  // ---------------------------------------------------------------------------
  // Whatever is decoded could have been encoded
  // ---------------------------------------------------------------------------

  lemma {:induction false} InsertFits(es: seq<Entry>, e: Entry)
    requires FitsEntries(es) && FitsString(e.key) && Fits(e.value)
    ensures FitsEntries(Insert(es, e))
  {
    hide Fits, IsUtf8;
    if es != [] {
      if es[0].key == e.key {
        assert ([e] + es[1..])[1..] == es[1..];
      } else if Less(e.key, es[0].key) {
        assert ([e] + es)[1..] == es;
      } else {
        InsertFits(es[1..], e);
        assert ([es[0]] + Insert(es[1..], e))[1..] == Insert(es[1..], e);
      }
    }
  }

  /** Any bytes that decode at all decode to a value that fits: every table in it is
      rectangular, every key in order, every number in range. */
  lemma {:induction false} ParsedFits(bs: Bytes)
    ensures Parse(bs).Done? ==> Fits(Parse(bs).value)
    decreases |bs|, 0, 0
  {
    if bs != [] && Parse(bs).Done? {
      if bs[0] <= 5 { LeafFits(bs[0], bs[1..]); } else { NodeFits(bs[0], bs[1..]); }
    }
  }

  lemma LeafFits(tag: Byte, bs: Bytes)
    ensures ParseLeaf(tag, bs).Done? ==> Fits(ParseLeaf(tag, bs).value)
  {
    hide IsUtf8, FromLittleEndian;
    assert Limit(4) == 0x1_0000_0000 by { assert Limit(2) == 0x10000; }
  }

  lemma {:induction false} NodeFits(tag: Byte, bs: Bytes)
    ensures ParseNode(tag, bs).Done? ==> Fits(ParseNode(tag, bs).value)
    decreases |bs|, 5, 0
  {
    hide Parse, ParseVec, ParseMap, ParseTable, IsUtf8;
    match tag {
      case 6 => VecFits(bs);
      case 7 => MapFits(bs);
      case 8 => if ParseStyle(bs).Done? { ParsedFits(ParseStyle(bs).rest); }
      case 9 => if ParseString(bs).Done? { ParsedFits(ParseString(bs).rest); }
      case 10 => TableFits(bs);
      case _ =>
    }
  }

  lemma {:induction false} ManyFits(bs: Bytes, count: nat)
    ensures ParseMany(bs, count).Done? ==> FitsAll(ParseMany(bs, count).value)
    decreases |bs|, 1, count
  {
    hide Parse, Fits;
    if count > 0 && Parse(bs).Done? {
      ParsedFits(bs);
      ManyFits(Parse(bs).rest, count - 1);
      var more := ParseMany(Parse(bs).rest, count - 1);
      if more.Done? { assert ([Parse(bs).value] + more.value)[1..] == more.value; }
    }
  }

  lemma {:induction false} VecFits(bs: Bytes)
    ensures ParseVec(bs).Done? ==> FitsAll(ParseVec(bs).value)
    decreases |bs|, 2, 0
  {
    hide ParseMany, FitsAll, FromLittleEndian;
    if ParseNumber(bs, 2).Done? { ManyFits(ParseNumber(bs, 2).rest, ParseNumber(bs, 2).value); }
  }

  lemma {:induction false} EntriesFit(bs: Bytes, count: nat, es: seq<Entry>)
    requires FitsEntries(es) && Increasing(es)
    ensures var r := ParseEntries(bs, count, es);
            r.Done? ==> FitsEntries(r.value) && Increasing(r.value) && |r.value| <= |es| + count
    decreases |bs|, 1, count
  {
    hide Parse, Fits, ParseString, IsUtf8, Less, FitsEntries;
    if count > 0 && ParseString(bs).Done? {
      var rest := ParseString(bs).rest;
      if Parse(rest).Done? {
        ParsedFits(rest);
        var e := Entry(ParseString(bs).value, Parse(rest).value);
        InsertFits(es, e);
        InsertIncreasing(es, e);
        EntriesFit(Parse(rest).rest, count - 1, Insert(es, e));
      }
    }
  }

  lemma NoEntries()
    ensures FitsEntries([]) && Increasing([])
  {
  }

  lemma {:induction false} MapFits(bs: Bytes)
    ensures ParseMap(bs).Done? ==> Fits(Map(ParseMap(bs).value))
    decreases |bs|, 3, 0
  {
    hide ParseEntries, FitsEntries, Increasing, FromLittleEndian;
    assert Limit(2) == 0x10000;
    NoEntries();
    if ParseNumber(bs, 2).Done? { EntriesFit(ParseNumber(bs, 2).rest, ParseNumber(bs, 2).value, []); }
  }

  lemma {:induction false} HeadersFit(bs: Bytes)
    ensures ParseHeaders(bs).Done? && ParseHeaders(bs).value.Headers? ==> FitsAll(ParseHeaders(bs).value.row)
    decreases |bs|, 3, 0
  {
    hide ParseVec, FitsAll;
    if bs != [] { VecFits(bs[1..]); }
  }

  lemma {:induction false} TableFits(bs: Bytes)
    ensures ParseTable(bs).Done? ==> Fits(Tab(ParseTable(bs).value))
    decreases |bs|, 4, 0
  {
    hide ParseVec, FitsAll, ParseHeaders, FromLittleEndian;
    assert Limit(2) == 0x10000;
    if ParseNumber(bs, 2).Done? {
      var rest := ParseNumber(bs, 2).rest;
      HeadersFit(rest);
      if ParseHeaders(rest).Done? { VecFits(ParseHeaders(rest).rest); }
    }
  }

  /** A value round-trips exactly when it fits. */
  lemma RoundTripIff(v: Value, rest: Bytes)
    ensures Parse(Encode(v) + rest) == Done(v, rest) <==> Fits(v)
  {
    hide Parse, Encode, Fits;
    ParsedFits(Encode(v) + rest);
    if Fits(v) { RoundTrip(v, rest); }
  }

  /** So a decoded value survives being encoded and decoded again. */
  lemma DecodedRoundTrip(bs: Bytes, rest: Bytes)
    requires Parse(bs).Done?
    ensures Parse(Encode(Parse(bs).value) + rest) == Done(Parse(bs).value, rest)
  {
    hide Parse, Encode, Fits;
    ParsedFits(bs);
    RoundTrip(Parse(bs).value, rest);
  }
}
