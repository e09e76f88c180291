/** Frames between the kernel and a scheme provider, written into a fixed buffer
    (`panda-abi/src/scheme_protocol.rs`). */
module SchemeFrames {
  import opened Common
  import opened Encoding

  datatype Request =
    | Open(id: nat, path: Bytes)
    | Readdir(id: nat, path: Bytes)
    | Connect(id: nat, path: Bytes)
    | Read(id: nat, resource: nat, len: nat)
    | Write(id: nat, resource: nat, data: Bytes)
    | Close(id: nat, resource: nat)

  function Kind(r: Request): Byte {
    match r
    case Open(_, _) => 1
    case Readdir(_, _) => 2
    case Read(_, _, _) => 3
    case Write(_, _, _) => 4
    case Close(_, _) => 5
    case Connect(_, _) => 6
  }

  /** Numbers are in range and paths are strings. */
  predicate Fits(r: Request) {
    && r.id < Limit(8)
    && match r
       case Open(_, path) => IsUtf8(path) && |path| < 0x10000
       case Readdir(_, path) => IsUtf8(path) && |path| < 0x10000
       case Connect(_, path) => IsUtf8(path) && |path| < 0x10000
       case Read(_, res, len) => res < Limit(8) && len < 0x1_0000_0000
       case Write(_, res, data) => res < Limit(8) && |data| < 0x1_0000_0000
       case Close(_, res) => res < Limit(8)
  }

  function Payload(r: Request): Bytes {
    match r
    case Open(_, path) => EncodeString(path)
    case Readdir(_, path) => EncodeString(path)
    case Connect(_, path) => EncodeString(path)
    case Read(_, res, len) => LittleEndian(res, 8) + LittleEndian(len, 4)
    case Write(_, res, data) => LittleEndian(res, 8) + EncodeByteArray(data)
    case Close(_, res) => LittleEndian(res, 8)
  }

  function Frame(r: Request): Bytes {
    [Kind(r)] + (LittleEndian(r.id, 8) + Payload(r))
  }

  /** Whether `encode` refuses the length outright, whatever the buffer. */
  predicate PathTooLong(r: Request) {
    (r.Open? || r.Readdir? || r.Connect?) && |r.path| >= 0x10000
  }

  function WithPath(kind: Byte, id: nat, path: Bytes): Option<Request> {
    if kind == 1 then Some(Open(id, path)) else if kind == 2 then Some(Readdir(id, path))
    else if kind == 6 then Some(Connect(id, path)) else None
  }

  function ParsePayload(kind: Byte, id: nat, bs: Bytes): Option<Request> {
    match kind
    case 3 =>
      (match ParseNumber(bs, 8)
       case Fail(_) => None
       case Done(res, rest) =>
         match ParseNumber(rest, 4)
         case Fail(_) => None
         case Done(len, _) => Some(Read(id, res, len)))
    case 4 =>
      (match ParseNumber(bs, 8)
       case Fail(_) => None
       case Done(res, rest) =>
         match ParseByteArray(rest)
         case Fail(_) => None
         case Done(data, _) => Some(Write(id, res, data)))
    case 5 =>
      (match ParseNumber(bs, 8)
       case Fail(_) => None
       case Done(res, _) => Some(Close(id, res)))
    case _ =>
      if kind == 1 || kind == 2 || kind == 6 then
        match ParseString(bs)
        case Fail(_) => None
        case Done(path, _) => WithPath(kind, id, path)
      else None
  }

  /** `Request::decode`: bytes after the frame are ignored. */
  function DecodeRequest(bs: Bytes): Option<Request> {
    if |bs| < 9 then None
    else
      match ParseNumber(bs[1..], 8)
      case Fail(_) => None
      case Done(id, rest) => ParsePayload(bs[0], id, rest)
  }

  lemma PayloadRoundTrip(r: Request, rest: Bytes)
    requires Fits(r)
    ensures ParsePayload(Kind(r), r.id, Payload(r) + rest) == Some(r)
  {
    hide LittleEndian, ParseNumber, EncodeString, ParseString, EncodeByteArray, ParseByteArray, IsUtf8;
    assert Limit(4) == 0x1_0000_0000 by { assert Limit(2) == 0x10000; }
    match r {
      case Open(_, path) => StringFits(path, rest);
      case Readdir(_, path) => StringFits(path, rest);
      case Connect(_, path) => StringFits(path, rest);
      case Read(_, res, len) =>
        assert Payload(r) + rest == LittleEndian(res, 8) + (LittleEndian(len, 4) + rest);
        NumberFits(res, 8, LittleEndian(len, 4) + rest);
        NumberFits(len, 4, rest);
      case Write(_, res, data) =>
        assert Payload(r) + rest == LittleEndian(res, 8) + (EncodeByteArray(data) + rest);
        NumberFits(res, 8, EncodeByteArray(data) + rest);
        ByteArrayRoundTrip(data, rest);
      case Close(_, res) => NumberFits(res, 8, rest);
    }
  }

  lemma RequestRoundTrip(r: Request, rest: Bytes)
    requires Fits(r)
    ensures DecodeRequest(Frame(r) + rest) == Some(r)
  {
    hide LittleEndian, ParseNumber, Payload, ParsePayload;
    var bs := Frame(r) + rest;
    assert bs[1..] == LittleEndian(r.id, 8) + (Payload(r) + rest);
    NumberFits(r.id, 8, Payload(r) + rest);
    PayloadRoundTrip(r, rest);
  }

  // ---------------------------------------------------------------------------
  // Writing into the buffer
  // ---------------------------------------------------------------------------

  /** Bytes with a range replaced. */
  function Over(bs: Bytes, at: nat, part: Bytes): Bytes
    requires at + |part| <= |bs|
  {
    bs[..at] + part + bs[at + |part|..]
  }

  lemma OverStep(bs: Bytes, at: nat, part: Bytes, i: nat)
    requires at + |part| <= |bs| && i < |part|
    ensures |Over(bs, at, part[..i])| == |bs|
    ensures Over(bs, at, part[..i])[at + i := part[i]] == Over(bs, at, part[..i + 1])
  {
  }

  lemma OverEnds(bs: Bytes, at: nat, part: Bytes)
    requires at + |part| <= |bs|
    ensures Over(bs, at, part[..0]) == bs && part[..|part|] == part
  {
  }

  /** `copy_from_slice` into a range of the buffer. */
  method Blit(buf: array<Byte>, at: nat, bytes: Bytes)
    requires at + |bytes| <= buf.Length
    modifies buf
    ensures buf[..] == Over(old(buf[..]), at, bytes)
  {
    hide Over;
    var i := 0;
    ghost var was := buf[..];
    OverEnds(was, at, bytes);
    while i < |bytes|
      invariant 0 <= i <= |bytes|
      invariant buf[..] == Over(was, at, bytes[..i])
    {
      OverStep(was, at, bytes, i);
      ghost var now := buf[..];
      buf[at + i] := bytes[i];
      assert buf[..] == now[at + i := bytes[i]];
      i := i + 1;
    }
  }

  /** Three adjacent parts from the start are one. */
  lemma OverThree(was: Bytes, x: Bytes, y: Bytes, z: Bytes)
    requires |x| + |y| + |z| <= |was|
    ensures Over(Over(Over(was, 0, x), |x|, y), |x| + |y|, z) == Over(was, 0, x + (y + z))
  {
  }

  /** `Request::encode`: the frame is written if it fits, and nothing else is touched. */
  method EncodeRequest(r: Request, buf: array<Byte>) returns (n: Option<nat>)
    modifies buf
    ensures n == (if PathTooLong(r) || |Frame(r)| > buf.Length then None else Some(|Frame(r)|))
    ensures buf[..] == if n.Some? then Over(old(buf[..]), 0, Frame(r)) else old(buf[..])
  {
    hide Over, Payload, Kind, LittleEndian;
    var payload := Payload(r);
    var total := 9 + |payload|;
    if total > buf.Length || ((r.Open? || r.Readdir? || r.Connect?) && |r.path| > 0xFFFF) {
      return None;
    }
    OverThree(buf[..], [Kind(r)], LittleEndian(r.id, 8), payload);
    Blit(buf, 0, [Kind(r)]);
    Blit(buf, 1, LittleEndian(r.id, 8));
    Blit(buf, 9, payload);
    return Some(total);
  }

  // ---------------------------------------------------------------------------
  // Directory listings
  // ---------------------------------------------------------------------------

  const DIRENT_NAME_MAX: nat := 255

  datatype DirEntry = DirEntry(name: Bytes, isDir: bool)

  function EntryBytes(e: DirEntry): Bytes {
    [|e.name| % 256, if e.isDir then 1 else 0] + e.name
  }

  function EntriesBytes(es: seq<DirEntry>): Bytes {
    if es == [] then [] else EntryBytes(es[0]) + EntriesBytes(es[1..])
  }

  predicate ShortNames(es: seq<DirEntry>) {
    forall e <- es :: |e.name| <= DIRENT_NAME_MAX
  }

  lemma {:induction false} EntriesSnoc(es: seq<DirEntry>, e: DirEntry)
    ensures EntriesBytes(es + [e]) == EntriesBytes(es) + EntryBytes(e)
  {
    hide EntryBytes;
    if es == [] {
      assert es + [e] == [e] && [e][1..] == [];
      assert EntriesBytes([e]) == EntryBytes(e) + EntriesBytes([]);
    } else {
      assert (es + [e])[1..] == es[1..] + [e];
      EntriesSnoc(es[1..], e);
    }
  }

  /** The entry at an offset of any bytes, if a whole one with a valid name is there. */
  function EntryAt(buf: Bytes, off: nat): (r: Option<DirEntry>)
    ensures r.Some? ==> off + 2 + |r.value.name| <= |buf| && r.value.name == buf[off + 2..off + 2 + |r.value.name|]
    ensures r.Some? ==> IsUtf8(r.value.name) && |r.value.name| <= DIRENT_NAME_MAX
  {
    if off + 1 < |buf| && off + 2 + buf[off] <= |buf| && IsUtf8(buf[off + 2..off + 2 + buf[off]]) then
      Some(DirEntry(buf[off + 2..off + 2 + buf[off]], buf[off + 1] != 0))
    else None
  }

  /** The entries any bytes hold from an offset on, at most so many, up to the first that
      is cut off or has no valid name. */
  function EntriesFrom(buf: Bytes, off: nat, remaining: nat): (es: seq<DirEntry>)
    ensures |es| <= remaining
    decreases remaining
  {
    if remaining == 0 then []
    else match EntryAt(buf, off)
         case None => []
         case Some(e) => [e] + EntriesFrom(buf, off + 2 + |e.name|, remaining - 1)
  }

  /** Iterator over a listing: entries still to come, the bytes, and where the next one is.
      The bytes are whatever a provider sent. */
  class EntriesIter {
    var remaining: nat
    const buf: Bytes
    var off: nat

    /** `ReaddirEntriesIter::new`, on bytes with a count. */
    constructor (raw: Bytes)
      requires |raw| >= 2
      ensures buf == raw && off == 2 && remaining == FromLittleEndian(raw[..2])
    {
      remaining, buf, off := FromLittleEndian(raw[..2]), raw, 2;
    }

    /** `next`, on any bytes: the entry there, and the iterator stands behind it; or none,
        and it stays where it is. It never passes the end. */
    method Next() returns (r: Option<DirEntry>)
      requires off <= |buf|
      modifies this
      ensures off <= |buf|
      ensures r == if old(remaining) == 0 then None else EntryAt(buf, old(off))
      ensures r.Some? ==> remaining == old(remaining) - 1 && off == old(off) + 2 + |r.value.name|
      ensures r == None ==> remaining == old(remaining) && off == old(off)
    {
      hide IsUtf8;
      if remaining == 0 {
        return None;
      }
      if off >= |buf| {
        return None;
      }
      var nameLen := buf[off];
      if off + 1 >= |buf| {
        return None;
      }
      var isDir := buf[off + 1] != 0;
      var start := off + 2;
      if start + nameLen > |buf| {
        return None;
      }
      var name := buf[start..start + nameLen];
      if !IsUtf8(name) {
        return None;
      }
      off := start + nameLen;
      remaining := remaining - 1;
      return Some(DirEntry(name, isDir));
    }
  }

  /** The first entry at the front of some bytes. */
  lemma FirstEntry(es: seq<DirEntry>, bs: Bytes)
    requires es != [] && ShortNames(es) && EntriesBytes(es) <= bs
    ensures var n := |es[0].name|;
            && |bs| >= 2 + n && bs[0] == n && bs[1] == (if es[0].isDir then 1 else 0) && bs[2..2 + n] == es[0].name
            && EntriesBytes(es[1..]) <= bs[2 + n..]
  {
    var e, n := es[0], |es[0].name|;
    assert e in es;
    assert EntriesBytes(es) == EntryBytes(e) + EntriesBytes(es[1..]);
    assert EntryBytes(e)[2..] == e.name;
  }

  /** A listing as carried after the response header. */
  function Listing(es: seq<DirEntry>): Bytes {
    LittleEndian(|es|, 2) + EntriesBytes(es)
  }

  /** A directory response: kind, request number, status, listing. */
  function ListingFrame(id: nat, es: seq<DirEntry>): Bytes {
    [2] + LittleEndian(id, 8) + [0] + Listing(es)
  }

  /** The buffer starts with `done`. */
  ghost predicate Starts(now: Bytes, done: Bytes) {
    |done| <= |now| && now[..|done|] == done
  }

  lemma StartsMore(now: Bytes, done: Bytes, more: Bytes)
    requires Starts(now, done) && |done| + |more| <= |now|
    ensures Starts(now[..|done|] + more + now[|done| + |more|..], done + more)
  {
  }

  lemma {:induction false} EntriesLength(es: seq<DirEntry>, i: nat)
    requires i <= |es|
    ensures |EntriesBytes(es[..i])| <= |EntriesBytes(es)| && 2 * |es| <= |EntriesBytes(es)|
    decreases |es| - i
  {
    hide EntryBytes;
    if i == |es| {
      assert es[..i] == es;
      EntriesAtLeast(es);
    } else {
      EntriesLength(es, i + 1);
      assert es[..i + 1] == es[..i] + [es[i]];
      EntriesSnoc(es[..i], es[i]);
    }
  }

  lemma {:induction false} EntriesAtLeast(es: seq<DirEntry>)
    ensures 2 * |es| <= |EntriesBytes(es)|
  {
    if es != [] { EntriesAtLeast(es[1..]); }
  }

  /** `encode_readdir_ok`: the frame is written exactly when every name is short enough
      and everything fits; the count is patched at the end. */
  method EncodeListing(id: nat, es: seq<DirEntry>, buf: array<Byte>) returns (n: Option<nat>)
    modifies buf
    ensures n == (if ShortNames(es) && |ListingFrame(id, es)| <= buf.Length then Some(|ListingFrame(id, es)|) else None)
    ensures n.Some? ==> Starts(buf[..], ListingFrame(id, es))
  {
    hide LittleEndian, EntryBytes, EntriesBytes;
    if buf.Length < 12 {
      return None;
    }
    var head := [2] + LittleEndian(id, 8) + [0];
    assert Starts(buf[..], []);
    StartsMore(buf[..], [], head);
    Blit(buf, 0, head);
    assert [] + head == head;
    var off, count := 12, 0;
    var zero := buf[10..12];
    assert Starts(buf[..], head + zero);
    assert head + zero + EntriesBytes([]) == head + zero by { NoEntries(); }
    assert es[..0] == [];
    while count < |es|
      invariant 0 <= count <= |es| && ShortNames(es[..count])
      invariant off == 12 + |EntriesBytes(es[..count])| <= buf.Length
      invariant Starts(buf[..], head + zero + EntriesBytes(es[..count]))
    {
      var e := es[count];
      assert e in es && es[..count + 1] == es[..count] + [e];
      EntriesSnoc(es[..count], e);
      EntriesLength(es, count + 1);
      if |e.name| > DIRENT_NAME_MAX {
        return None;
      }
      EntrySize(e);
      if off + 2 + |e.name| > buf.Length {
        return None;
      }
      StartsMore(buf[..], head + zero + EntriesBytes(es[..count]), EntryBytes(e));
      Blit(buf, off, EntryBytes(e));
      assert head + zero + EntriesBytes(es[..count]) + EntryBytes(e) == head + zero + EntriesBytes(es[..count + 1]);
      off := off + 2 + |e.name|;
      count := count + 1;
    }
    assert es[..count] == es;
    Blit(buf, 10, LittleEndian(count, 2));
    PatchedCount(head, zero, EntriesBytes(es), LittleEndian(|es|, 2));
    return Some(off);
  }

  lemma NoEntries()
    ensures EntriesBytes([]) == []
  {
  }

  lemma EntrySize(e: DirEntry)
    ensures |EntryBytes(e)| == 2 + |e.name|
  {
  }

  lemma PatchedCount(head: Bytes, zero: Bytes, tail: Bytes, count: Bytes)
    requires |head| == 10 && |zero| == 2 && |count| == 2
    ensures forall now: Bytes :: Starts(now, head + zero + tail) ==>
              Starts(now[..10] + count + now[12..], head + (count + tail))
  {
    forall now: Bytes | Starts(now, head + zero + tail)
      ensures Starts(now[..10] + count + now[12..], head + (count + tail))
    {
      var all := head + zero + tail;
      assert now == all + now[|all|..];
      assert now[..10] == head;
      assert now[12..] == tail + now[|all|..];
    }
  }

  lemma ListingHead(es: seq<DirEntry>, rest: Bytes)
    requires |es| < 0x10000
    ensures var raw := Listing(es) + rest;
            |raw| >= 2 && FromLittleEndian(raw[..2]) == |es| && EntriesBytes(es) <= raw[2..]
  {
    hide LittleEndian, FromLittleEndian, EntriesBytes;
    assert Limit(2) == 0x10000;
    NumberFits(|es|, 2, EntriesBytes(es) + rest);
    var raw := Listing(es) + rest;
    assert raw == LittleEndian(|es|, 2) + (EntriesBytes(es) + rest);
    assert raw[2..] == EntriesBytes(es) + rest;
  }

  /** At the front of encoded entries stands the first one. */
  lemma FirstIsThere(buf: Bytes, off: nat, es: seq<DirEntry>)
    requires es != [] && ShortNames(es) && IsUtf8(es[0].name) && off <= |buf| && EntriesBytes(es) <= buf[off..]
    ensures EntryAt(buf, off) == Some(es[0])
    ensures off + 2 + |es[0].name| <= |buf| && EntriesBytes(es[1..]) <= buf[off + 2 + |es[0].name|..]
  {
    hide IsUtf8, EntriesBytes;
    FirstEntry(es, buf[off..]);
    var n := |es[0].name|;
    assert buf[off..][2..2 + n] == buf[off + 2..off + 2 + n];
    assert buf[off..][2 + n..] == buf[off + 2 + n..];
  }

  lemma {:induction false} EntriesRead(buf: Bytes, off: nat, es: seq<DirEntry>)
    requires ShortNames(es) && (forall e <- es :: IsUtf8(e.name)) && off <= |buf| && EntriesBytes(es) <= buf[off..]
    ensures EntriesFrom(buf, off, |es|) == es
    decreases |es|
  {
    hide IsUtf8, EntriesBytes, EntryAt;
    if es != [] {
      FirstIsThere(buf, off, es);
      EntriesRead(buf, off + 2 + |es[0].name|, es[1..]);
      assert es == [es[0]] + es[1..];
    }
  }

  /** An encoded listing, whatever follows it, holds exactly its entries. */
  lemma ListingEntries(es: seq<DirEntry>, rest: Bytes)
    requires |es| < 0x10000 && ShortNames(es) && forall e <- es :: IsUtf8(e.name)
    ensures var raw := Listing(es) + rest;
            |raw| >= 2 && EntriesFrom(raw, 2, FromLittleEndian(raw[..2])) == es
  {
    hide IsUtf8, EntriesBytes, EntryAt, FromLittleEndian, LittleEndian, Listing;
    ListingHead(es, rest);
    EntriesRead(Listing(es) + rest, 2, es);
  }

  /** Collecting the iterator over any bytes gives the entries they hold; there is no
      iterator exactly when the count is cut off. */
  method CollectEntries(raw: Bytes) returns (r: Option<seq<DirEntry>>)
    ensures r == if |raw| < 2 then None else Some(EntriesFrom(raw, 2, FromLittleEndian(raw[..2])))
  {
    hide IsUtf8, FromLittleEndian, EntryAt;
    if |raw| < 2 {
      return None;
    }
    var it := new EntriesIter(raw);
    var es: seq<DirEntry> := [];
    ghost var all := EntriesFrom(raw, 2, it.remaining);
    while true
      invariant it.buf == raw && it.off <= |raw| && es + EntriesFrom(raw, it.off, it.remaining) == all
      decreases it.remaining
    {
      ghost var rest := EntriesFrom(raw, it.off, it.remaining);
      var next := it.Next();
      if next == None {
        assert rest == [] && es + rest == es;
        return Some(es);
      }
      assert rest == [next.value] + EntriesFrom(raw, it.off, it.remaining);
      es := es + [next.value];
    }
  }
}
