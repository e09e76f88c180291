/** Answers of a scheme provider (`Response` in `panda-abi/src/scheme_protocol.rs`). */
module SchemeResponses {
  import opened Common
  import opened Encoding
  import opened SchemeFrames

  /** Error codes are their numbers; 0 is success and 8 the general input/output error. */
  const ERRORS: nat := 23
  const IO_ERROR: nat := 8

  datatype Response =
    | OpenOk(id: nat, resource: nat)
    | ReaddirOk(id: nat, raw: Bytes)
    | ReadOk(id: nat, data: Bytes)
    | WriteOk(id: nat, written: nat)
    | CloseOk(id: nat)
    | ConnectOk(id: nat)
    | Failed(kind: Byte, id: nat, error: nat)

  predicate FitsResponse(r: Response) {
    && r.id < Limit(8)
    && match r
       case OpenOk(_, res) => res < Limit(8)
       case ReadOk(_, data) => |data| < 0x1_0000_0000
       case WriteOk(_, n) => n < 0x1_0000_0000
       case Failed(kind, _, e) => 1 <= kind <= 6 && e < ERRORS
       case _ => true
  }

  function ResponseKind(r: Response): Byte {
    match r
    case OpenOk(_, _) => 1
    case ReaddirOk(_, _) => 2
    case ReadOk(_, _) => 3
    case WriteOk(_, _) => 4
    case CloseOk(_) => 5
    case ConnectOk(_) => 6
    case Failed(kind, _, _) => kind
  }

  function Body(r: Response): Bytes {
    match r
    case OpenOk(_, res) => LittleEndian(res, 8)
    case ReaddirOk(_, raw) => raw
    case ReadOk(_, data) => EncodeByteArray(data)
    case WriteOk(_, n) => LittleEndian(n, 4)
    case CloseOk(_) => []
    case ConnectOk(_) => []
    case Failed(_, _, e) => [e % 256]
  }

  function Status(r: Response): Byte {
    if r.Failed? then 1 else 0
  }

  /** Kind, request number, status, and what depends on them. */
  function ResponseFrame(r: Response): Bytes {
    [ResponseKind(r)] + (LittleEndian(r.id, 8) + ([Status(r)] + Body(r)))
  }

  /** `u8_to_error`: an unknown byte, and that of success, is read as the general error. */
  function ErrorOf(b: Byte): nat {
    if 1 <= b < ERRORS then b else IO_ERROR
  }

  function ParseBody(kind: Byte, id: nat, body: Bytes): Option<Response> {
    match kind
    case 1 => (match ParseNumber(body, 8) case Fail(_) => None case Done(res, _) => Some(OpenOk(id, res)))
    case 2 => Some(ReaddirOk(id, body))
    case 3 => (match ParseByteArray(body) case Fail(_) => None case Done(data, _) => Some(ReadOk(id, data)))
    case 4 => (match ParseNumber(body, 4) case Fail(_) => None case Done(n, _) => Some(WriteOk(id, n)))
    case 5 => Some(CloseOk(id))
    case 6 => Some(ConnectOk(id))
    case _ => None
  }

  /** `Response::decode`. */
  function DecodeResponse(bs: Bytes): Option<Response> {
    if |bs| < 10 then None
    else
      var body := bs[10..];
      match ParseNumber(bs[1..], 8)
      case Fail(_) => None
      case Done(id, _) =>
        if bs[9] == 1 then
          if body != [] && 1 <= bs[0] <= 6 then Some(Failed(bs[0], id, ErrorOf(body[0]))) else None
        else if bs[9] == 0 then ParseBody(bs[0], id, body)
        else None
  }

  lemma BodyRoundTrip(r: Response, rest: Bytes)
    requires FitsResponse(r) && !r.Failed? && !r.ReaddirOk?
    ensures ParseBody(ResponseKind(r), r.id, Body(r) + rest) == Some(r)
  {
    hide LittleEndian, ParseNumber, EncodeByteArray, ParseByteArray;
    assert Limit(4) == 0x1_0000_0000 by { assert Limit(2) == 0x10000; }
    match r {
      case OpenOk(_, res) => NumberFits(res, 8, rest);
      case ReadOk(_, data) => ByteArrayRoundTrip(data, rest);
      case WriteOk(_, n) => NumberFits(n, 4, rest);
      case CloseOk(_) =>
      case ConnectOk(_) =>
    }
  }

  /** The header of any response is read back. */
  lemma HeaderRead(r: Response, rest: Bytes)
    requires FitsResponse(r)
    ensures var bs := ResponseFrame(r) + rest;
            && |bs| >= 10 && bs[0] == ResponseKind(r) && bs[9] == Status(r) && bs[10..] == Body(r) + rest
            && ParseNumber(bs[1..], 8) == Done(r.id, [Status(r)] + (Body(r) + rest))
  {
    hide LittleEndian, ParseNumber, Body, ResponseKind, Status;
    var bs := ResponseFrame(r) + rest;
    var tail := [Status(r)] + (Body(r) + rest);
    assert bs == [ResponseKind(r)] + (LittleEndian(r.id, 8) + tail);
    assert bs[1..] == LittleEndian(r.id, 8) + tail;
    NumberFits(r.id, 8, tail);
    assert bs[9..] == tail;
  }

  /** A response followed by anything decodes to itself, except that a failure carrying
      the code of success comes back as the general error. */
  lemma ResponseRoundTrip(r: Response, rest: Bytes)
    requires FitsResponse(r) && !r.ReaddirOk?
    ensures DecodeResponse(ResponseFrame(r) + rest) == Some(r) <==> !(r.Failed? && r.error == 0)
    ensures r.Failed? && r.error == 0 ==> DecodeResponse(ResponseFrame(r) + rest) == Some(r.(error := IO_ERROR))
  {
    hide LittleEndian, ParseNumber, ParseBody, ResponseFrame;
    HeaderRead(r, rest);
    if !r.Failed? {
      BodyRoundTrip(r, rest);
    }
  }

  /** Whatever bytes a provider sends, no failure is read as success, and the request
      number of the answer is the one in the frame. */
  lemma FailureNeverSuccess(bs: Bytes)
    requires DecodeResponse(bs).Some?
    ensures var r := DecodeResponse(bs).value;
            && |bs| >= 10 && ParseNumber(bs[1..], 8).Done? && r.id == ParseNumber(bs[1..], 8).value
            && (r.Failed? <==> bs[9] == 1)
            && (r.Failed? ==> |bs| > 10 && r.error == if 1 <= bs[10] <= 22 then bs[10] else 8)
            && ResponseKind(r) == bs[0]
  {
    hide ParseNumber, ParseByteArray;
  }

  /** A directory answer carries the listing and whatever follows it, which is what the
      entry iterator accepts. */
  lemma ListingRoundTrip(id: nat, es: seq<DirEntry>, rest: Bytes)
    requires id < Limit(8)
    ensures DecodeResponse(ListingFrame(id, es) + rest) == Some(ReaddirOk(id, Listing(es) + rest))
  {
    hide LittleEndian, ParseNumber, Listing, ResponseFrame;
    var r := ReaddirOk(id, Listing(es));
    HeaderRead(r, rest);
    ListingIsResponse(id, es);
  }

  lemma ListingIsResponse(id: nat, es: seq<DirEntry>)
    ensures ListingFrame(id, es) == ResponseFrame(ReaddirOk(id, Listing(es)))
  {
    hide LittleEndian, Listing;
  }

  /** The encoders of every response but the directory one: the frame is written if it
      fits, and nothing else is touched. */
  method EncodeResponse(r: Response, buf: array<Byte>) returns (n: Option<nat>)
    requires !r.ReaddirOk?
    modifies buf
    ensures n == (if |ResponseFrame(r)| > buf.Length then None else Some(|ResponseFrame(r)|))
    ensures buf[..] == if n.Some? then Over(old(buf[..]), 0, ResponseFrame(r)) else old(buf[..])
  {
    hide Over, Body, ResponseKind, Status, LittleEndian;
    var body := Body(r);
    var total := 10 + |body|;
    if total > buf.Length {
      return None;
    }
    OverThree(buf[..], [ResponseKind(r)], LittleEndian(r.id, 8), [Status(r)] + body);
    Blit(buf, 0, [ResponseKind(r)]);
    Blit(buf, 1, LittleEndian(r.id, 8));
    Blit(buf, 9, [Status(r)] + body);
    return Some(total);
  }

  /** The header of a request: its kind, then its number, low byte first. */
  lemma RequestHeader(r: Request, i: nat)
    requires i < 8
    ensures var bs := Frame(r);
            && |bs| >= 9 && bs[1 + i] == r.id / Limit(i) % 256
            && bs[0] ==
               match r
               case Open(_, _) => 1
               case Readdir(_, _) => 2
               case Read(_, _, _) => 3
               case Write(_, _, _) => 4
               case Close(_, _) => 5
               case Connect(_, _) => 6
  {
    hide LittleEndian, Payload;
    LittleEndianByte(r.id, 8, i);
  }

  /** The header of a response: its kind, its number, and whether it failed. */
  lemma ResponseHeader(r: Response, i: nat)
    requires i < 8
    ensures var bs := ResponseFrame(r);
            && |bs| >= 10 && bs[1 + i] == r.id / Limit(i) % 256 && bs[9] == (if r.Failed? then 1 else 0)
            && bs[0] ==
               match r
               case OpenOk(_, _) => 1
               case ReaddirOk(_, _) => 2
               case ReadOk(_, _) => 3
               case WriteOk(_, _) => 4
               case CloseOk(_) => 5
               case ConnectOk(_) => 6
               case Failed(kind, _, _) => kind
  {
    hide LittleEndian, Body;
    LittleEndianByte(r.id, 8, i);
  }

  /** Requests of any bytes are of the kind their first byte says. */
  lemma RequestKind(bs: Bytes)
    requires DecodeRequest(bs).Some?
    ensures |bs| >= 9 && Frame(DecodeRequest(bs).value)[0] == bs[0]
  {
    hide ParseNumber, ParseString, ParseByteArray, Payload;
  }

  /** Where the parts of a request are, after its header. */
  lemma PayloadLayout(r: Request, i: nat)
    requires i < 8 && Fits(r)
    ensures Frame(r)[9..] == Payload(r)
    ensures var bs := Payload(r);
            match r
            case Open(_, path) => bs == [|path| % 0x100, |path| / 0x100] + path
            case Readdir(_, path) => bs == [|path| % 0x100, |path| / 0x100] + path
            case Connect(_, path) => bs == [|path| % 0x100, |path| / 0x100] + path
            case Read(_, res, len) =>
              |bs| == 12 && bs[i] == res / Limit(i) % 256 && (i < 4 ==> bs[8 + i] == len / Limit(i) % 256)
            case Write(_, res, data) =>
              && |bs| == 12 + |data| && bs[12..] == data && bs[i] == res / Limit(i) % 256
              && (i < 4 ==> bs[8 + i] == |data| / Limit(i) % 256)
            case Close(_, res) => |bs| == 8 && bs[i] == res / Limit(i) % 256
  {
    hide LittleEndian, IsUtf8, EncodeString;
    assert Frame(r)[9..] == Payload(r);
    match r {
      case Open(_, path) => StringLayout(path);
      case Readdir(_, path) => StringLayout(path);
      case Connect(_, path) => StringLayout(path);
      case Read(_, res, len) =>
        LittleEndianByte(res, 8, i);
        if i < 4 { LittleEndianByte(len, 4, i); }
      case Write(_, res, data) =>
        LittleEndianByte(res, 8, i);
        if i < 4 { LittleEndianByte(|data|, 4, i); }
      case Close(_, res) => LittleEndianByte(res, 8, i);
    }
  }

  /** Where the parts of a response are, after its header. */
  lemma BodyLayout(r: Response, i: nat)
    requires i < 8 && FitsResponse(r)
    ensures ResponseFrame(r)[10..] == Body(r)
    ensures var bs := Body(r);
            match r
            case OpenOk(_, res) => |bs| == 8 && bs[i] == res / Limit(i) % 256
            case ReaddirOk(_, raw) => bs == raw
            case ReadOk(_, data) =>
              |bs| == 4 + |data| && bs[4..] == data && (i < 4 ==> bs[i] == |data| / Limit(i) % 256)
            case WriteOk(_, n) => |bs| == 4 && (i < 4 ==> bs[i] == n / Limit(i) % 256)
            case CloseOk(_) => bs == []
            case ConnectOk(_) => bs == []
            case Failed(_, _, e) => bs == [e]
  {
    hide LittleEndian;
    assert ResponseFrame(r)[10..] == Body(r);
    match r {
      case OpenOk(_, res) => LittleEndianByte(res, 8, i);
      case ReadOk(_, data) => if i < 4 { LittleEndianByte(|data|, 4, i); }
      case WriteOk(_, n) => if i < 4 { LittleEndianByte(n, 4, i); }
      case _ =>
    }
  }
}
