/**
 One raw framebuffer update, as sections 7.6.1 and 7.7.1 of RFC 6143 describe it: read from a socket
 in fragments of any size, copied row by row into a framebuffer, and turned into RGBA pixels.
 */
module VncFrame {
  import opened Wrappers

  type Byte = b: int | 0 <= b < 256

  datatype Error =
    | ConnectionClosed
    | UnexpectedMessage(kind: Byte)
    | NoRectangles
    | UnsupportedEncoding
    | IndexOutOfRange

  // ---------------------------------------------------------------- reading

  /** A connected socket: the bytes the server has yet to deliver before it closes. */
  class Socket {
    var stream: seq<Byte>

    constructor (bytes: seq<Byte>)
      ensures stream == bytes
    {
      stream := bytes;
    }

    /** Some of the next bytes: as few as the network likes, none only once the server has closed. */
    method Recv(limit: nat) returns (chunk: seq<Byte>)
      requires limit > 0
      modifies this
      ensures chunk + stream == old(stream) && |chunk| <= limit
      ensures chunk == [] <==> old(stream) == []
    {
      if stream == [] {
        return [];
      }
      var size :| 1 <= size <= limit && size <= |stream|;
      chunk := stream[..size];
      stream := stream[size..];
    }
  }

  function Joined(chunks: seq<seq<Byte>>): seq<Byte> {
    if chunks == [] then [] else Joined(chunks[..|chunks| - 1]) + chunks[|chunks| - 1]
  }

  /** The next `count` bytes whatever the fragments; an error exactly when the server sends fewer. */
  method ReadExact(sock: Socket, count: nat) returns (r: Result<seq<Byte>, Error>)
    modifies sock
    ensures r.Ok? <==> count <= |old(sock.stream)|
    ensures r.Ok? ==> r.value == old(sock.stream)[..count] && sock.stream == old(sock.stream)[count..]
    ensures r.Err? ==> r == Err(ConnectionClosed) && sock.stream == []
  {
    var chunks: seq<seq<Byte>> := [];
    var remaining: nat := count;
    while remaining != 0
      invariant remaining <= count
      invariant Joined(chunks) + sock.stream == old(sock.stream)
      invariant |Joined(chunks)| == count - remaining
    {
      ghost var before := sock.stream;
      var chunk := sock.Recv(remaining);
      if chunk == [] {
        return Err(ConnectionClosed);
      }
      assert (chunks + [chunk])[..|chunks|] == chunks;
      assert Joined(chunks + [chunk]) == Joined(chunks) + chunk;
      assert Joined(chunks) + before == (Joined(chunks) + chunk) + sock.stream;
      chunks := chunks + [chunk];
      remaining := remaining - |chunk|;
    }
    return Ok(Joined(chunks));
  }

  // ---------------------------------------------------------------- rectangles

  /** The number of pixels in so many rows of this width: their product. */
  function Area(rows: nat, width: nat): nat {
    if rows == 0 then 0 else Area(rows - 1, width) + width
  }

  lemma {:induction false} AreaIsProduct(rows: nat, width: nat)
    ensures Area(rows, width) == rows * width
  {
    if rows > 0 {
      AreaIsProduct(rows - 1, width);
      assert rows * width == (rows - 1) * width + width;
    }
  }

  lemma {:induction false} AreaGrows(a: nat, b: nat, width: nat)
    requires a <= b
    ensures Area(a, width) <= Area(b, width) && (a < b ==> Area(a, width) + width <= Area(b, width))
    decreases b
  {
    if a < b {
      AreaGrows(a, b - 1, width);
    }
  }

  datatype Rect = Rect(x: nat, y: nat, w: nat, h: nat, data: seq<Byte>)

  predicate WellFormed(r: Rect) {
    r.x < 65536 && r.y < 65536 && r.w < 65536 && r.h < 65536 && |r.data| == Area(r.h, r.w) * 4
  }

  function U16(hi: Byte, lo: Byte): nat {
    hi * 256 + lo
  }

  /**
   Python's assignment to the slice `start .. start + |bytes|` of a bytearray: both ends are cut to
   the buffer, so bytes that do not fit make it longer.
   */
  function Splice(buffer: seq<Byte>, start: nat, bytes: seq<Byte>): seq<Byte> {
    var from := if start < |buffer| then start else |buffer|;
    var to := if start + |bytes| < |buffer| then start + |bytes| else |buffer|;
    buffer[..from] + bytes + buffer[to..]
  }

  /** The pixel at which a row of the rectangle starts, counted along the rows of the screen. */
  function RowPixel(width: nat, r: Rect, row: nat): nat {
    Area(r.y + row, width) + r.x
  }

  function RowStart(width: nat, r: Rect, row: nat): nat {
    RowPixel(width, r, row) * 4
  }

  lemma RowInData(w: nat, h: nat, row: nat)
    requires row < h
    ensures Area(row, w) * 4 + w * 4 <= Area(h, w) * 4
  {
    AreaGrows(row, h, w);
  }

  function RowBytes(r: Rect, row: nat): (bytes: seq<Byte>)
    requires WellFormed(r) && row < r.h
    ensures |bytes| == r.w * 4
  {
    RowInData(r.w, r.h, row);
    r.data[Area(row, r.w) * 4 .. Area(row, r.w) * 4 + r.w * 4]
  }

  function BlitRows(buffer: seq<Byte>, width: nat, r: Rect, rows: nat): seq<Byte>
    requires WellFormed(r) && rows <= r.h
  {
    if rows == 0 then buffer
    else Splice(BlitRows(buffer, width, r, rows - 1), RowStart(width, r, rows - 1), RowBytes(r, rows - 1))
  }

  predicate AllWellFormed(rs: seq<Rect>) {
    forall i :: 0 <= i < |rs| ==> WellFormed(rs[i])
  }

  function BlitAll(buffer: seq<Byte>, width: nat, rs: seq<Rect>): seq<Byte>
    requires AllWellFormed(rs)
    decreases |rs|
  {
    if rs == [] then buffer else BlitAll(BlitRows(buffer, width, rs[0], rs[0].h), width, rs[1..])
  }

  // ---------------------------------------------------------------- the capture

  function Black(width: nat, height: nat): seq<Byte> {
    seq(Area(height, width) * 4, _ => 0)
  }

  /** The framebuffer of an update. */
  function Frame(rs: seq<Rect>, width: nat, height: nat): seq<Byte>
    requires AllWellFormed(rs)
  {
    BlitAll(Black(width, height), width, rs)
  }

  function Header(s: seq<Byte>): (r: Rect)
    requires |s| >= 12
  {
    Rect(U16(s[0], s[1]), U16(s[2], s[3]), U16(s[4], s[5]), U16(s[6], s[7]), [])
  }

  /** The four bytes of the encoding say that the pixels follow as they are. */
  predicate IsRaw(s: seq<Byte>)
    requires |s| >= 12
  {
    s[8] == 0 && s[9] == 0 && s[10] == 0 && s[11] == 0
  }

  /** The framebuffer after `n` rectangles read from `s`. */
  function DecodedRects(s: seq<Byte>, n: nat, width: nat, buffer: seq<Byte>): Result<seq<Byte>, Error> {
    if n == 0 then Ok(buffer)
    else if |s| < 12 then Err(ConnectionClosed)
    else if !IsRaw(s) then Err(UnsupportedEncoding)
    else
      var head := Header(s);
      var size: nat := Area(head.h, head.w) * 4;
      if |s| < 12 + size then Err(ConnectionClosed)
      else
        var r := head.(data := s[12..12 + size]);
        DecodedRects(s[12 + size..], n - 1, width, BlitRows(buffer, width, r, r.h))
  }

  /** The RGBA byte at `k`, from the blue, green, red order of the framebuffer. */
  function RgbaByte(buffer: seq<Byte>, k: nat): Byte
    requires k < |buffer| && |buffer| % 4 == 0
  {
    if k % 4 == 0 then buffer[k + 2]
    else if k % 4 == 1 then buffer[k]
    else if k % 4 == 2 then buffer[k - 2]
    else 255
  }

  function Rgba(buffer: seq<Byte>): (r: seq<Byte>)
    requires |buffer| % 4 == 0
  {
    seq(|buffer|, k requires 0 <= k < |buffer| => RgbaByte(buffer, k))
  }

  function Finished(buffer: seq<Byte>, width: nat, height: nat): Result<seq<Byte>, Error> {
    if |buffer| == Area(height, width) * 4 then Ok(Rgba(buffer)) else Err(IndexOutOfRange)
  }

  /** The image a server's update message produces. */
  function Decoded(s: seq<Byte>, width: nat, height: nat): Result<seq<Byte>, Error> {
    if |s| < 1 then Err(ConnectionClosed)
    else if s[0] != 0 then Err(UnexpectedMessage(s[0]))
    else if |s| < 4 then Err(ConnectionClosed)
    else if U16(s[2], s[3]) < 1 then Err(NoRectangles)
    else
      var r := DecodedRects(s[4..], U16(s[2], s[3]), width, Black(width, height));
      if r.Err? then r else Finished(r.value, width, height)
  }

  lemma SpliceAligned(buffer: seq<Byte>, start: nat, bytes: seq<Byte>)
    requires |buffer| % 4 == 0 && start % 4 == 0 && |bytes| % 4 == 0
    ensures |buffer| <= |Splice(buffer, start, bytes)| && |Splice(buffer, start, bytes)| % 4 == 0
  {
  }

  lemma RowAligned(width: nat, r: Rect, row: nat)
    requires WellFormed(r) && row < r.h
    ensures RowStart(width, r, row) % 4 == 0 && |RowBytes(r, row)| % 4 == 0
  {
  }

  lemma SpliceLength(buffer: seq<Byte>, start: nat, bytes: seq<Byte>)
    ensures |buffer| <= |Splice(buffer, start, bytes)|
    ensures |Splice(buffer, start, bytes)| == |buffer| <==> bytes == [] || start + |bytes| <= |buffer|
  {
  }

  predicate Extends(before: seq<Byte>, after: seq<Byte>) {
    |after| % 4 == 0 && |before| <= |after|
  }

  lemma RowKeepsAlignment(before: seq<Byte>, width: nat, r: Rect, row: nat)
    requires WellFormed(r) && row < r.h && |before| % 4 == 0
    ensures Extends(before, Splice(before, RowStart(width, r, row), RowBytes(r, row)))
  {
    RowAligned(width, r, row);
    SpliceAligned(before, RowStart(width, r, row), RowBytes(r, row));
  }

  lemma {:induction false} RowsKeepAlignment(buffer: seq<Byte>, width: nat, r: Rect, rows: nat)
    requires WellFormed(r) && rows <= r.h && |buffer| % 4 == 0
    ensures Extends(buffer, BlitRows(buffer, width, r, rows))
  {
    if rows > 0 {
      RowsKeepAlignment(buffer, width, r, rows - 1);
      RowKeepsAlignment(BlitRows(buffer, width, r, rows - 1), width, r, rows - 1);
    }
  }

  /** The bytes begin with this rectangle. */
  predicate BeginsWith(s: seq<Byte>, r: Rect) {
    && WellFormed(r) && |s| >= 12 + |r.data| && IsRaw(s)
    && r == Header(s).(data := s[12..12 + |r.data|])
  }

  method ReadRect(sock: Socket) returns (r: Result<Rect, Error>)
    modifies sock
    ensures r.Ok? ==> BeginsWith(old(sock.stream), r.value) && sock.stream == old(sock.stream)[12 + |r.value.data|..]
    ensures r.Err? ==> forall n: nat, width: nat, buffer :: n > 0 ==>
      DecodedRects(old(sock.stream), n, width, buffer) == Err(r.error)
  {
    var header := ReadExact(sock, 12);
    if header.Err? {
      return Err(header.error);
    }
    if header.value[8..12] != [0, 0, 0, 0] {
      return Err(UnsupportedEncoding);
    }
    var head := Header(header.value);
    assert head == Header(old(sock.stream));
    var data := ReadExact(sock, Area(head.h, head.w) * 4);
    if data.Err? {
      return Err(data.error);
    }
    return Ok(head.(data := data.value));
  }

  /** Copies the rows of one rectangle. */
  method Blit(buffer: seq<Byte>, width: nat, r: Rect) returns (framebuffer: seq<Byte>)
    requires WellFormed(r)
    ensures framebuffer == BlitRows(buffer, width, r, r.h)
  {
    framebuffer := buffer;
    for row := 0 to r.h
      invariant framebuffer == BlitRows(buffer, width, r, row)
    {
      framebuffer := Splice(framebuffer, RowStart(width, r, row), RowBytes(r, row));
    }
  }

  lemma FourBytes(framebuffer: seq<Byte>, index: nat)
    requires |framebuffer| % 4 == 0 && index % 4 == 0 && index < |framebuffer|
    ensures index + 4 <= |framebuffer|
    ensures RgbaByte(framebuffer, index) == framebuffer[index + 2]
    ensures RgbaByte(framebuffer, index + 1) == framebuffer[index + 1]
    ensures RgbaByte(framebuffer, index + 2) == framebuffer[index]
    ensures RgbaByte(framebuffer, index + 3) == 255
  {
  }

  /** One turn of the loop. */
  method SwapPixel(framebuffer: seq<Byte>, rgba: array<Byte>, index: nat)
    requires |framebuffer| % 4 == 0 && index % 4 == 0 && index < |framebuffer| && index + 3 < rgba.Length
    requires forall k :: 0 <= k < index ==> rgba[k] == RgbaByte(framebuffer, k)
    modifies rgba
    ensures index + 4 <= |framebuffer|
    ensures forall k :: 0 <= k < index + 4 ==> rgba[k] == RgbaByte(framebuffer, k)
  {
    FourBytes(framebuffer, index);
    rgba[index] := framebuffer[index + 2];
    rgba[index + 1] := framebuffer[index + 1];
    rgba[index + 2] := framebuffer[index];
    rgba[index + 3] := 255;
  }

  /** The loop that swaps the channels; an index past either buffer is an error. */
  method SwapChannels(framebuffer: seq<Byte>, width: nat, height: nat) returns (r: Result<seq<Byte>, Error>)
    requires |framebuffer| % 4 == 0 && Area(height, width) * 4 <= |framebuffer|
    ensures r == Finished(framebuffer, width, height)
  {
    var rgba := new Byte[Area(height, width) * 4](_ => 0);
    var index := 0;
    while index < |framebuffer|
      invariant 0 <= index <= |framebuffer| && index % 4 == 0 && index <= rgba.Length
      invariant forall k :: 0 <= k < index ==> rgba[k] == RgbaByte(framebuffer, k)
    {
      if index + 3 >= rgba.Length {
        return Err(IndexOutOfRange);
      }
      SwapPixel(framebuffer, rgba, index);
      index := index + 4;
    }
    assert rgba[..] == Rgba(framebuffer);
    return Ok(rgba[..]);
  }

  lemma DecodeNext(s: seq<Byte>, r: Rect, n: nat, width: nat, buffer: seq<Byte>)
    requires BeginsWith(s, r) && n > 0
    ensures DecodedRects(s, n, width, buffer)
         == DecodedRects(s[12 + |r.data|..], n - 1, width, BlitRows(buffer, width, r, r.h))
  {
  }

  /** With `n` rectangles to go over this buffer, the bytes lead to the outcome. */
  ghost predicate Leads(s: seq<Byte>, n: nat, width: nat, buffer: seq<Byte>, outcome: Result<seq<Byte>, Error>) {
    DecodedRects(s, n, width, buffer) == outcome
  }

  /** One turn of the loop, with `n` rectangles to go. */
  method ReadAndBlit(sock: Socket, buffer: seq<Byte>, width: nat, ghost n: nat,
                     ghost outcome: Result<seq<Byte>, Error>)
    returns (framebuffer: Result<seq<Byte>, Error>)
    requires |buffer| % 4 == 0 && n > 0 && Leads(sock.stream, n, width, buffer, outcome)
    modifies sock
    ensures framebuffer.Ok? ==>
      Extends(buffer, framebuffer.value) && Leads(sock.stream, n - 1, width, framebuffer.value, outcome)
    ensures framebuffer.Err? ==> outcome == framebuffer
  {
    ghost var s := sock.stream;
    var rect := ReadRect(sock);
    if rect.Err? {
      return Err(rect.error);
    }
    DecodeNext(s, rect.value, n, width, buffer);
    RowsKeepAlignment(buffer, width, rect.value, rect.value.h);
    var copied := Blit(buffer, width, rect.value);
    return Ok(copied);
  }

  method ReadRects(sock: Socket, total: nat, width: nat, height: nat) returns (r: Result<seq<Byte>, Error>)
    modifies sock
    ensures r == DecodedRects(old(sock.stream), total, width, Black(width, height))
    ensures r.Ok? ==> Extends(Black(width, height), r.value)
  {
    var framebuffer := Black(width, height);
    ghost var outcome, left := DecodedRects(sock.stream, total, width, framebuffer), total;
    for i := 0 to total
      invariant Extends(Black(width, height), framebuffer)
      invariant left == total - i && Leads(sock.stream, left, width, framebuffer, outcome)
    {
      var copied := ReadAndBlit(sock, framebuffer, width, left, outcome);
      if copied.Err? {
        return copied;
      }
      framebuffer := copied.value;
      left := left - 1;
    }
    return Ok(framebuffer);
  }

  /** The outcome depends on the bytes sent and not on how the network fragments them. */
  method Capture(sock: Socket, width: nat, height: nat) returns (r: Result<seq<Byte>, Error>)
    modifies sock
    ensures r == Decoded(old(sock.stream), width, height)
  {
    var kind := ReadExact(sock, 1);
    if kind.Err? {
      return Err(kind.error);
    }
    if kind.value[0] != 0 {
      return Err(UnexpectedMessage(kind.value[0]));
    }
    var padding := ReadExact(sock, 1);
    if padding.Err? {
      return Err(padding.error);
    }
    var count := ReadExact(sock, 2);
    if count.Err? {
      return Err(count.error);
    }
    ghost var s := old(sock.stream);
    assert count.value == s[2..4] && sock.stream == s[4..];
    var total := U16(count.value[0], count.value[1]);
    if total < 1 {
      return Err(NoRectangles);
    }
    var framebuffer := ReadRects(sock, total, width, height);
    if framebuffer.Err? {
      return framebuffer;
    }
    r := SwapChannels(framebuffer.value, width, height);
  }

  // ---------------------------------------------------------------- what the update message carries

  function Bytes16(n: nat): seq<Byte>
    requires n < 65536
  {
    [n / 256, n % 256]
  }

  function EncodeRect(r: Rect): seq<Byte>
    requires WellFormed(r)
  {
    Bytes16(r.x) + Bytes16(r.y) + Bytes16(r.w) + Bytes16(r.h) + [0, 0, 0, 0] + r.data
  }

  function EncodeRects(rs: seq<Rect>): seq<Byte>
    requires AllWellFormed(rs)
  {
    if rs == [] then [] else EncodeRect(rs[0]) + EncodeRects(rs[1..])
  }

  function EncodeUpdate(rs: seq<Rect>): seq<Byte>
    requires AllWellFormed(rs) && |rs| < 65536
  {
    [0, 0] + Bytes16(|rs|) + EncodeRects(rs)
  }

  lemma RectHeader(r: Rect, tail: seq<Byte>)
    requires WellFormed(r)
    ensures var s := EncodeRect(r) + tail;
      && |s| >= 12 + |r.data| && Header(s) == r.(data := []) && IsRaw(s)
      && s[12..12 + |r.data|] == r.data && s[12 + |r.data|..] == tail
  {
    var body := r.data + tail;
    assert EncodeRect(r) + tail ==
      [r.x / 256, r.x % 256, r.y / 256, r.y % 256, r.w / 256, r.w % 256, r.h / 256, r.h % 256, 0, 0, 0, 0] + body;
  }

  lemma {:induction false} RectsDecode(rs: seq<Rect>, rest: seq<Byte>, width: nat, buffer: seq<Byte>)
    requires AllWellFormed(rs)
    ensures DecodedRects(EncodeRects(rs) + rest, |rs|, width, buffer) == Ok(BlitAll(buffer, width, rs))
  {
    if rs != [] {
      var tail := EncodeRects(rs[1..]) + rest;
      FirstRectDecodes(rs, rest, tail);
      DecodeNext(EncodeRects(rs) + rest, rs[0], |rs|, width, buffer);
      RectsDecode(rs[1..], rest, width, BlitRows(buffer, width, rs[0], rs[0].h));
    }
  }

  lemma JoinAssociates(a: seq<Byte>, b: seq<Byte>, c: seq<Byte>)
    ensures (a + b) + c == a + (b + c)
  {
  }

  lemma FirstRectDecodes(rs: seq<Rect>, rest: seq<Byte>, tail: seq<Byte>)
    requires AllWellFormed(rs) && rs != [] && tail == EncodeRects(rs[1..]) + rest
    ensures BeginsWith(EncodeRects(rs) + rest, rs[0]) && (EncodeRects(rs) + rest)[12 + |rs[0].data|..] == tail
  {
    JoinAssociates(EncodeRect(rs[0]), EncodeRects(rs[1..]), rest);
    RectHeader(rs[0], tail);
  }

  // ---------------------------------------------------------------- bytes that are no update

  lemma BadEncoding(bad: seq<Byte>, n: nat, width: nat, buffer: seq<Byte>)
    requires n > 0 && |bad| >= 12 && !IsRaw(bad)
    ensures DecodedRects(bad, n, width, buffer) == Err(UnsupportedEncoding)
  {
  }

  /** The first rectangle is read, and the rest leads to the outcome over it. */
  lemma LeadsNext(s: seq<Byte>, r: Rect, tail: seq<Byte>, n: nat, width: nat, buffer: seq<Byte>,
                  outcome: Result<seq<Byte>, Error>)
    requires BeginsWith(s, r) && s[12 + |r.data|..] == tail && n > 0
    requires Leads(tail, n - 1, width, BlitRows(buffer, width, r, r.h), outcome)
    ensures Leads(s, n, width, buffer, outcome)
  {
    DecodeNext(s, r, n, width, buffer);
  }

  lemma BadEncodingFirst(rs: seq<Rect>, bad: seq<Byte>, n: nat, width: nat, buffer: seq<Byte>)
    requires rs == [] && n > 0 && |bad| >= 12 && !IsRaw(bad)
    ensures Leads(EncodeRects(rs) + bad, n, width, buffer, Err(UnsupportedEncoding))
  {
    assert EncodeRects(rs) + bad == bad;
    BadEncoding(bad, n, width, buffer);
  }

  lemma FirstLeads(rs: seq<Rect>, rest: seq<Byte>, n: nat, width: nat, buffer: seq<Byte>,
                   outcome: Result<seq<Byte>, Error>)
    requires AllWellFormed(rs) && rs != [] && n > 0
    requires Leads(EncodeRects(rs[1..]) + rest, n - 1, width, BlitRows(buffer, width, rs[0], rs[0].h), outcome)
    ensures Leads(EncodeRects(rs) + rest, n, width, buffer, outcome)
  {
    var tail := EncodeRects(rs[1..]) + rest;
    FirstRectDecodes(rs, rest, tail);
    LeadsNext(EncodeRects(rs) + rest, rs[0], tail, n, width, buffer, outcome);
  }

  lemma {:induction false} EncodingFailsAfter(rs: seq<Rect>, bad: seq<Byte>, n: nat, width: nat, buffer: seq<Byte>)
    requires AllWellFormed(rs) && n > |rs| && |bad| >= 12 && !IsRaw(bad)
    ensures Leads(EncodeRects(rs) + bad, n, width, buffer, Err(UnsupportedEncoding))
    decreases |rs|
  {
    if rs == [] {
      BadEncodingFirst(rs, bad, n, width, buffer);
    } else {
      EncodingFailsAfter(rs[1..], bad, n - 1, width, BlitRows(buffer, width, rs[0], rs[0].h));
      FirstLeads(rs, bad, n, width, buffer, Err(UnsupportedEncoding));
    }
  }

  /** The bytes of an update message that announces `n` rectangles. */
  function Message(n: nat, body: seq<Byte>): seq<Byte>
    requires n < 65536
  {
    [0, 0] + Bytes16(n) + body
  }

  lemma MessageDecodes(n: nat, body: seq<Byte>, width: nat, height: nat)
    requires 1 <= n < 65536
    ensures DecodedRects(body, n, width, Black(width, height)).Err? ==>
      Decoded(Message(n, body), width, height) == DecodedRects(body, n, width, Black(width, height))
  {
    assert Message(n, body) == [0, 0, n / 256, n % 256] + body;
    assert Message(n, body)[4..] == body;
  }

  /** A rectangle in another encoding ends the capture, whatever came before it. */
  lemma OtherEncodingFails(rs: seq<Rect>, bad: seq<Byte>, n: nat, width: nat, height: nat)
    requires AllWellFormed(rs) && |rs| < n < 65536 && |bad| >= 12 && !IsRaw(bad)
    ensures Decoded(Message(n, EncodeRects(rs) + bad), width, height) == Err(UnsupportedEncoding)
  {
    EncodingFailsAfter(rs, bad, n, width, Black(width, height));
    MessageDecodes(n, EncodeRects(rs) + bad, width, height);
  }

  lemma RectLength(r: Rect)
    requires WellFormed(r)
    ensures |EncodeRect(r)| == 12 + |r.data|
  {
  }

  /** The bytes break off inside the first rectangle. */
  lemma TruncatedInFirst(r: Rect, more: seq<Byte>, k: nat, n: nat, width: nat, buffer: seq<Byte>)
    requires WellFormed(r) && k < 12 + |r.data| && n > 0 && k <= |EncodeRect(r) + more|
    ensures Leads((EncodeRect(r) + more)[..k], n, width, buffer, Err(ConnectionClosed))
  {
    var whole := EncodeRect(r) + more;
    RectHeader(r, more);
    if 12 <= k {
      assert Header(whole[..k]) == Header(whole);
    }
  }

  /** Or somewhere after it. */
  lemma TruncatedAfterFirst(r: Rect, more: seq<Byte>, k: nat, n: nat, width: nat, buffer: seq<Byte>)
    requires WellFormed(r) && 12 + |r.data| <= k <= |EncodeRect(r) + more| && n > 0
    requires |EncodeRect(r) + more| == 12 + |r.data| + |more|
    requires Leads(more[..k - 12 - |r.data|], n - 1, width, BlitRows(buffer, width, r, r.h), Err(ConnectionClosed))
    ensures Leads((EncodeRect(r) + more)[..k], n, width, buffer, Err(ConnectionClosed))
  {
    var whole, size := EncodeRect(r) + more, 12 + |r.data|;
    var s := whole[..k];
    RectHeader(r, more);
    assert Header(s) == Header(whole) && s[12..size] == whole[12..size];
    assert s[size..] == more[..k - 12 - |r.data|];
    LeadsNext(s, r, more[..k - 12 - |r.data|], n, width, buffer, Err(ConnectionClosed));
  }

  lemma {:induction false} TruncatedRects(rs: seq<Rect>, k: nat, n: nat, width: nat, buffer: seq<Byte>)
    requires AllWellFormed(rs) && k < |EncodeRects(rs)| && n >= |rs|
    ensures Leads(EncodeRects(rs)[..k], n, width, buffer, Err(ConnectionClosed))
    decreases |rs|
  {
    var r, more := rs[0], EncodeRects(rs[1..]);
    RectLength(r);
    if k < 12 + |r.data| {
      TruncatedInFirst(r, more, k, n, width, buffer);
    } else {
      TruncatedRects(rs[1..], k - 12 - |r.data|, n - 1, width, BlitRows(buffer, width, r, r.h));
      TruncatedAfterFirst(r, more, k, n, width, buffer);
    }
  }

  /** An update that breaks off anywhere before its last byte is a closed connection. */
  lemma TruncatedUpdateFails(rs: seq<Rect>, k: nat, width: nat, height: nat)
    requires AllWellFormed(rs) && 1 <= |rs| < 65536 && k < |EncodeUpdate(rs)|
    ensures Decoded(EncodeUpdate(rs)[..k], width, height) == Err(ConnectionClosed)
  {
    var whole, s := EncodeUpdate(rs), EncodeUpdate(rs)[..k];
    UpdateHeader(rs, []);
    assert whole + [] == whole && EncodeRects(rs) + [] == EncodeRects(rs);
    if k >= 4 {
      assert s[4..] == whole[4..][..k - 4];
      TruncatedRects(rs, k - 4, |rs|, width, Black(width, height));
    }
  }

  /** Another message, and an update of no rectangles, are named as such. */
  lemma OtherMessagesFail(s: seq<Byte>, width: nat, height: nat)
    ensures s != [] && s[0] != 0 ==> Decoded(s, width, height) == Err(UnexpectedMessage(s[0]))
    ensures |s| >= 4 && s[..4] == [0, s[1], 0, 0] ==> Decoded(s, width, height) == Err(NoRectangles)
  {
  }

  // ---------------------------------------------------------------- when it succeeds

  /** Every pixel row of the rectangle ends inside the buffer. */
  predicate Fits(r: Rect, width: nat, area: nat) {
    r.w == 0 || r.h == 0 || Area(r.y + r.h - 1, width) + r.x + r.w <= area
  }

  predicate AllFit(rs: seq<Rect>, width: nat, area: nat) {
    forall i :: 0 <= i < |rs| ==> Fits(rs[i], width, area)
  }

  /** The first `rows` rows end inside the buffer; the last of them decides. */
  predicate RowsFit(r: Rect, width: nat, area: nat, rows: nat) {
    r.w == 0 || rows == 0 || RowStart(width, r, rows - 1) + r.w * 4 <= area * 4
  }

  lemma OneMoreFits(r: Rect, width: nat, area: nat, rows: nat)
    requires RowsFit(r, width, area, rows + 1)
    ensures RowsFit(r, width, area, rows)
  {
    if rows > 0 {
      AreaGrows(r.y + rows - 1, r.y + rows, width);
    }
  }

  /** The buffer has grown unless it had the size and the rows fit. */
  ghost predicate KeepsSizeIff(before: seq<Byte>, after: seq<Byte>, width: nat, area: nat, r: Rect, rows: nat) {
    |after| >= |before| && (|after| == area * 4 <==> |before| == area * 4 && RowsFit(r, width, area, rows))
  }

  lemma RowFitsIff(before: seq<Byte>, width: nat, area: nat, r: Rect, row: nat)
    requires WellFormed(r) && row < r.h && |before| >= area * 4
    ensures KeepsSizeIff(before, Splice(before, RowStart(width, r, row), RowBytes(r, row)), width, area, r, row + 1)
  {
    SpliceLength(before, RowStart(width, r, row), RowBytes(r, row));
  }

  lemma SizeKeptOnce(buffer: seq<Byte>, before: seq<Byte>, after: seq<Byte>, width: nat, area: nat, r: Rect, row: nat)
    requires |buffer| >= area * 4 && KeepsSizeIff(buffer, before, width, area, r, row)
    requires KeepsSizeIff(before, after, width, area, r, row + 1)
    ensures KeepsSizeIff(buffer, after, width, area, r, row + 1)
  {
    if RowsFit(r, width, area, row + 1) {
      OneMoreFits(r, width, area, row);
    }
  }

  lemma RowsFitNext(buffer: seq<Byte>, width: nat, area: nat, r: Rect, rows: nat)
    requires WellFormed(r) && 0 < rows <= r.h && |buffer| >= area * 4
    requires KeepsSizeIff(buffer, BlitRows(buffer, width, r, rows - 1), width, area, r, rows - 1)
    ensures KeepsSizeIff(buffer, BlitRows(buffer, width, r, rows), width, area, r, rows)
  {
    var before := BlitRows(buffer, width, r, rows - 1);
    RowFitsIff(before, width, area, r, rows - 1);
    SizeKeptOnce(buffer, before, BlitRows(buffer, width, r, rows), width, area, r, rows - 1);
  }

  lemma {:induction false} RowsFitIff(buffer: seq<Byte>, width: nat, area: nat, r: Rect, rows: nat)
    requires WellFormed(r) && rows <= r.h && |buffer| >= area * 4
    ensures KeepsSizeIff(buffer, BlitRows(buffer, width, r, rows), width, area, r, rows)
  {
    if rows > 0 {
      RowsFitIff(buffer, width, area, r, rows - 1);
      RowsFitNext(buffer, width, area, r, rows);
    }
  }

  lemma AllFitIff(rs: seq<Rect>, width: nat, area: nat)
    requires rs != []
    ensures AllFit(rs, width, area) <==> RowsFit(rs[0], width, area, rs[0].h) && AllFit(rs[1..], width, area)
  {
    assert Fits(rs[0], width, area) <==> RowsFit(rs[0], width, area, rs[0].h);
    assert forall i :: 1 <= i < |rs| ==> rs[i] == rs[1..][i - 1];
  }

  /** The framebuffer keeps its size exactly when every rectangle fits. */
  lemma {:induction false} FrameKeepsSizeIff(buffer: seq<Byte>, width: nat, area: nat, rs: seq<Rect>)
    requires AllWellFormed(rs) && |buffer| >= area * 4
    ensures |BlitAll(buffer, width, rs)| >= |buffer|
    ensures |BlitAll(buffer, width, rs)| == area * 4 <==> |buffer| == area * 4 && AllFit(rs, width, area)
    decreases |rs|
  {
    if rs != [] {
      RowsFitIff(buffer, width, area, rs[0], rs[0].h);
      FrameKeepsSizeIff(BlitRows(buffer, width, rs[0], rs[0].h), width, area, rs[1..]);
      AllFitIff(rs, width, area);
    }
  }

  lemma FinishedIff(frame: seq<Byte>, width: nat, height: nat)
    ensures var r := Finished(frame, width, height);
      && (r.Ok? <==> |frame| == Area(height, width) * 4)
      && (r.Ok? ==> |r.value| == |frame| && r == Ok(Rgba(frame)))
      && (r.Err? ==> r == Err(IndexOutOfRange))
  {
  }

  lemma UpdateHeader(rs: seq<Rect>, rest: seq<Byte>)
    requires AllWellFormed(rs) && 1 <= |rs| < 65536
    ensures var s := EncodeUpdate(rs) + rest;
      |s| >= 4 && s[0] == 0 && U16(s[2], s[3]) == |rs| && s[4..] == EncodeRects(rs) + rest
  {
    var body := EncodeRects(rs) + rest;
    assert EncodeUpdate(rs) + rest == [0, 0, |rs| / 256, |rs| % 256] + body;
  }

  /** What an update with these rectangles comes to. */
  function Picture(rs: seq<Rect>, width: nat, height: nat): Result<seq<Byte>, Error>
    requires AllWellFormed(rs)
  {
    Finished(Frame(rs, width, height), width, height)
  }

  /** Just that is captured from the bytes of the update, whatever the server sends after them. */
  lemma UpdateDecodes(rs: seq<Rect>, rest: seq<Byte>, width: nat, height: nat)
    requires AllWellFormed(rs) && 1 <= |rs| < 65536
    ensures Decoded(EncodeUpdate(rs) + rest, width, height) == Picture(rs, width, height)
  {
    UpdateHeader(rs, rest);
    RectsDecode(rs, rest, width, Black(width, height));
  }

  /** An update is an image exactly when every rectangle fits; otherwise it is an index error. */
  lemma UpdateSucceedsIff(rs: seq<Rect>, width: nat, height: nat)
    requires AllWellFormed(rs)
    ensures var r := Picture(rs, width, height);
      && (r.Ok? <==> AllFit(rs, width, Area(height, width)))
      && (r.Ok? ==> |r.value| == Area(height, width) * 4)
      && (r.Err? ==> r == Err(IndexOutOfRange))
  {
    FrameKeepsSizeIff(Black(width, height), width, Area(height, width), rs);
    FinishedIff(Frame(rs, width, height), width, height);
  }

  /** A screen of one pixel and a rectangle of one pixel just below it. */
  lemma BelowTheScreenFails(pixel: seq<Byte>)
    requires |pixel| == 4
    ensures var r := Rect(0, 1, 1, 1, pixel);
      WellFormed(r) && Picture([r], 1, 1) == Err(IndexOutOfRange)
  {
    var r := Rect(0, 1, 1, 1, pixel);
    AreaIsProduct(1, 1);
    assert AllWellFormed([r]);
    assert !Fits([r][0], 1, Area(1, 1));
    UpdateSucceedsIff([r], 1, 1);
  }

  // ---------------------------------------------------------------- what it shows

  /** Row `row` of the rectangle writes pixel `p`, counted along the rows of the screen. */
  predicate Writes(width: nat, r: Rect, row: nat, p: nat) {
    row < r.h && RowPixel(width, r, row) <= p < RowPixel(width, r, row) + r.w
  }

  predicate Reaches(width: nat, r: Rect, p: nat) {
    exists row :: 0 <= row < r.h && Writes(width, r, row, p)
  }

  lemma PixelInside(p: nat, size: nat, c: nat)
    requires p < size && c < 4
    ensures p * 4 + c < size * 4
  {
  }

  /** The channel byte the row carries for the pixel. */
  function RowByte(width: nat, r: Rect, row: nat, p: nat, c: nat): Byte
    requires WellFormed(r) && Writes(width, r, row, p) && c < 4
  {
    AreaGrows(row, r.h, r.w);
    PixelInside(Area(row, r.w) + p - RowPixel(width, r, row), Area(r.h, r.w), c);
    r.data[(Area(row, r.w) + p - RowPixel(width, r, row)) * 4 + c]
  }

  lemma RowCarries(width: nat, r: Rect, row: nat, p: nat, c: nat)
    requires WellFormed(r) && Writes(width, r, row, p) && c < 4
    ensures (p - RowPixel(width, r, row)) * 4 + c < |RowBytes(r, row)|
    ensures RowBytes(r, row)[(p - RowPixel(width, r, row)) * 4 + c] == RowByte(width, r, row, p, c)
  {
    RowInData(r.w, r.h, row);
  }

  lemma SpliceAt(buffer: seq<Byte>, start: nat, bytes: seq<Byte>, k: nat)
    requires (bytes == [] || start + |bytes| <= |buffer|) && k < |buffer|
    ensures |Splice(buffer, start, bytes)| == |buffer|
    ensures Splice(buffer, start, bytes)[k] == if start <= k < start + |bytes| then bytes[k - start] else buffer[k]
  {
  }

  /** The row ends inside a buffer of that size. */
  predicate RowInside(width: nat, r: Rect, row: nat, size: nat) {
    r.w == 0 || RowStart(width, r, row) + r.w * 4 <= size
  }

  ghost predicate RowsInside(width: nat, r: Rect, size: nat) {
    forall row: nat :: row < r.h ==> RowInside(width, r, row, size)
  }

  lemma FitsInside(r: Rect, width: nat, area: nat)
    requires Fits(r, width, area)
    ensures RowsInside(width, r, area * 4)
  {
    forall row: nat | row < r.h ensures RowInside(width, r, row, area * 4) {
      AreaGrows(r.y + row, r.y + r.h - 1, width);
    }
  }

  /** What one more row does to the byte of a pixel. */
  lemma RowShows(before: seq<Byte>, width: nat, r: Rect, row: nat, p: nat, c: nat)
    requires WellFormed(r) && row < r.h && RowInside(width, r, row, |before|) && c < 4 && p * 4 + c < |before|
    ensures var after := Splice(before, RowStart(width, r, row), RowBytes(r, row));
      && |after| == |before|
      && after[p * 4 + c] == if Writes(width, r, row, p) then RowByte(width, r, row, p, c) else before[p * 4 + c]
  {
    SpliceAt(before, RowStart(width, r, row), RowBytes(r, row), p * 4 + c);
    if Writes(width, r, row, p) {
      RowCarries(width, r, row, p, c);
    }
  }

  /** The byte of a pixel after the first `rows` rows, over what was `below` them. */
  function Painted(width: nat, r: Rect, rows: nat, p: nat, c: nat, below: Byte): Byte
    requires WellFormed(r) && rows <= r.h && c < 4
  {
    if rows == 0 then below
    else if Writes(width, r, rows - 1, p) then RowByte(width, r, rows - 1, p, c)
    else Painted(width, r, rows - 1, p, c, below)
  }

  /** The byte of a pixel in a buffer, or 0 past its end. */
  function ByteOf(buffer: seq<Byte>, p: nat, c: nat): Byte {
    if p * 4 + c < |buffer| then buffer[p * 4 + c] else 0
  }

  lemma NextRowShows(before: seq<Byte>, width: nat, r: Rect, row: nat, p: nat, c: nat, below: Byte)
    requires WellFormed(r) && row < r.h && RowInside(width, r, row, |before|) && c < 4 && p * 4 + c < |before|
    requires ByteOf(before, p, c) == Painted(width, r, row, p, c, below)
    ensures |Splice(before, RowStart(width, r, row), RowBytes(r, row))| == |before|
    ensures ByteOf(Splice(before, RowStart(width, r, row), RowBytes(r, row)), p, c)
         == Painted(width, r, row + 1, p, c, below)
  {
    RowShows(before, width, r, row, p, c);
  }

  ghost predicate RowsShown(buffer: seq<Byte>, width: nat, r: Rect, rows: nat, p: nat, c: nat)
    requires WellFormed(r) && rows <= r.h && c < 4
  {
    && |BlitRows(buffer, width, r, rows)| == |buffer|
    && ByteOf(BlitRows(buffer, width, r, rows), p, c) == Painted(width, r, rows, p, c, ByteOf(buffer, p, c))
  }

  lemma RowsShownNext(buffer: seq<Byte>, width: nat, r: Rect, rows: nat, p: nat, c: nat)
    requires WellFormed(r) && 0 < rows <= r.h && RowInside(width, r, rows - 1, |buffer|)
    requires c < 4 && p * 4 + c < |buffer| && RowsShown(buffer, width, r, rows - 1, p, c)
    ensures RowsShown(buffer, width, r, rows, p, c)
  {
    NextRowShows(BlitRows(buffer, width, r, rows - 1), width, r, rows - 1, p, c, ByteOf(buffer, p, c));
  }

  lemma {:induction false} RowsShow(buffer: seq<Byte>, width: nat, r: Rect, rows: nat, p: nat, c: nat)
    requires WellFormed(r) && rows <= r.h && RowsInside(width, r, |buffer|) && c < 4 && p * 4 + c < |buffer|
    ensures RowsShown(buffer, width, r, rows, p, c)
  {
    if rows > 0 {
      RowsShow(buffer, width, r, rows - 1, p, c);
      RowsShownNext(buffer, width, r, rows, p, c);
    }
  }

  lemma {:induction false} NothingPainted(width: nat, r: Rect, rows: nat, p: nat, c: nat, below: Byte)
    requires WellFormed(r) && rows <= r.h && c < 4 && !Reaches(width, r, p)
    ensures Painted(width, r, rows, p, c, below) == below
  {
    if rows > 0 {
      NothingPainted(width, r, rows - 1, p, c, below);
    }
  }

  /** Row `row` writes the pixel and no later row of the rectangle does. */
  predicate LastRow(width: nat, r: Rect, row: nat, p: nat) {
    Writes(width, r, row, p) && forall later :: row < later < r.h ==> !Writes(width, r, later, p)
  }

  lemma {:induction false} LastRowPaints(width: nat, r: Rect, rows: nat, row: nat, p: nat, c: nat, below: Byte)
    requires WellFormed(r) && row < rows <= r.h && c < 4 && LastRow(width, r, row, p)
    ensures Painted(width, r, rows, p, c, below) == RowByte(width, r, row, p, c)
  {
    if row < rows - 1 {
      LastRowPaints(width, r, rows - 1, row, p, c, below);
    }
  }

  predicate NoneReaches(width: nat, rs: seq<Rect>, p: nat) {
    forall i :: 0 <= i < |rs| ==> !Reaches(width, rs[i], p)
  }

  /** Row `row` of rectangle `i` writes the pixel; no later row of it and no later rectangle does. */
  predicate LastWriter(width: nat, rs: seq<Rect>, i: nat, row: nat, p: nat) {
    i < |rs| && LastRow(width, rs[i], row, p) && forall j :: i < j < |rs| ==> !Reaches(width, rs[j], p)
  }

  lemma {:induction false} UntouchedShows(buffer: seq<Byte>, width: nat, area: nat, rs: seq<Rect>, p: nat, c: nat)
    requires AllWellFormed(rs) && AllFit(rs, width, area) && NoneReaches(width, rs, p)
    requires |buffer| == area * 4 && c < 4 && p * 4 + c < |buffer|
    ensures |BlitAll(buffer, width, rs)| == |buffer|
    ensures ByteOf(BlitAll(buffer, width, rs), p, c) == ByteOf(buffer, p, c)
    decreases |rs|
  {
    if rs != [] {
      FitsInside(rs[0], width, area);
      RowsShow(buffer, width, rs[0], rs[0].h, p, c);
      NothingPainted(width, rs[0], rs[0].h, p, c, ByteOf(buffer, p, c));
      UntouchedShows(BlitRows(buffer, width, rs[0], rs[0].h), width, area, rs[1..], p, c);
    }
  }

  lemma {:induction false} LastWriterShows(buffer: seq<Byte>, width: nat, area: nat, rs: seq<Rect>, i: nat, row: nat,
                                           p: nat, c: nat)
    requires AllWellFormed(rs) && AllFit(rs, width, area) && LastWriter(width, rs, i, row, p)
    requires |buffer| == area * 4 && c < 4 && p * 4 + c < |buffer|
    ensures |BlitAll(buffer, width, rs)| == |buffer|
    ensures ByteOf(BlitAll(buffer, width, rs), p, c) == RowByte(width, rs[i], row, p, c)
    decreases i
  {
    var next := BlitRows(buffer, width, rs[0], rs[0].h);
    FitsInside(rs[0], width, area);
    RowsShow(buffer, width, rs[0], rs[0].h, p, c);
    if i == 0 {
      LastRowPaints(width, rs[0], rs[0].h, row, p, c, ByteOf(buffer, p, c));
      UntouchedShows(next, width, area, rs[1..], p, c);
    } else {
      LastWriterShows(next, width, area, rs[1..], i - 1, row, p, c);
    }
  }

  /** The four bytes of pixel `p`. */
  function Pixel(image: seq<Byte>, p: nat): (pixel: seq<Byte>)
    requires p * 4 + 4 <= |image|
  {
    image[p * 4..p * 4 + 4]
  }

  lemma RgbaByteAt(buffer: seq<Byte>, p: nat, c: nat)
    requires |buffer| % 4 == 0 && c < 4 && p * 4 + 4 <= |buffer|
    ensures Rgba(buffer)[p * 4 + c] == if c == 3 then 255 else ByteOf(buffer, p, 2 - c)
  {
    assert (p * 4 + c) % 4 == c;
  }

  lemma ChannelsSwap(buffer: seq<Byte>, p: nat)
    requires |buffer| % 4 == 0 && p * 4 + 4 <= |buffer|
    ensures Pixel(Rgba(buffer), p) == [ByteOf(buffer, p, 2), ByteOf(buffer, p, 1), ByteOf(buffer, p, 0), 255]
  {
    var colours := [ByteOf(buffer, p, 2), ByteOf(buffer, p, 1), ByteOf(buffer, p, 0), 255];
    forall c: nat | c < 4 ensures Pixel(Rgba(buffer), p)[c] == colours[c] {
      RgbaByteAt(buffer, p, c);
    }
  }

  lemma AlignedPixel(size: nat, area: nat, p: nat)
    requires size == area * 4 && p < area
    ensures size % 4 == 0 && p * 4 + 4 <= size
  {
  }

  /** The pixel as the row has it: red, green, blue, and opaque. */
  function RowColours(width: nat, r: Rect, row: nat, p: nat): seq<Byte>
    requires WellFormed(r) && Writes(width, r, row, p)
  {
    [RowByte(width, r, row, p, 2), RowByte(width, r, row, p, 1), RowByte(width, r, row, p, 0), 255]
  }

  lemma FrameByte(rs: seq<Rect>, width: nat, height: nat, i: nat, row: nat, p: nat, c: nat)
    requires AllWellFormed(rs) && AllFit(rs, width, Area(height, width)) && LastWriter(width, rs, i, row, p)
    requires p < Area(height, width) && c < 4
    ensures |Frame(rs, width, height)| == Area(height, width) * 4
    ensures ByteOf(Frame(rs, width, height), p, c) == RowByte(width, rs[i], row, p, c)
  {
    LastWriterShows(Black(width, height), width, Area(height, width), rs, i, row, p, c);
  }

  lemma FrameByteIsBlack(rs: seq<Rect>, width: nat, height: nat, p: nat, c: nat)
    requires AllWellFormed(rs) && AllFit(rs, width, Area(height, width)) && NoneReaches(width, rs, p)
    requires p < Area(height, width) && c < 4
    ensures |Frame(rs, width, height)| == Area(height, width) * 4 && ByteOf(Frame(rs, width, height), p, c) == 0
  {
    UntouchedShows(Black(width, height), width, Area(height, width), rs, p, c);
  }

  /** All rectangles of a picture fit, and a pixel is that of the framebuffer with its channels swapped. */
  lemma PictureShows(rs: seq<Rect>, width: nat, height: nat, image: seq<Byte>, p: nat)
    requires AllWellFormed(rs) && Picture(rs, width, height) == Ok(image) && p < Area(height, width)
    ensures AllFit(rs, width, Area(height, width)) && |image| == Area(height, width) * 4
    ensures var frame := Frame(rs, width, height);
      Pixel(image, p) == [ByteOf(frame, p, 2), ByteOf(frame, p, 1), ByteOf(frame, p, 0), 255]
  {
    UpdateSucceedsIff(rs, width, height);
    FinishedPixel(Frame(rs, width, height), width, height, image, p);
  }

  lemma FinishedPixel(frame: seq<Byte>, width: nat, height: nat, image: seq<Byte>, p: nat)
    requires Finished(frame, width, height) == Ok(image) && p < Area(height, width)
    ensures |image| == Area(height, width) * 4
    ensures Pixel(image, p) == [ByteOf(frame, p, 2), ByteOf(frame, p, 1), ByteOf(frame, p, 0), 255]
  {
    AlignedPixel(|frame|, Area(height, width), p);
    ChannelsSwap(frame, p);
  }

  /**
   Whatever the rectangles, if the update succeeds: each pixel is the red, green and blue of the row
   that writes it last, opaque.
   */
  lemma ImageShowsLastRow(rs: seq<Rect>, width: nat, height: nat, image: seq<Byte>, i: nat, row: nat, p: nat)
    requires AllWellFormed(rs) && Picture(rs, width, height) == Ok(image)
    requires p < Area(height, width) && LastWriter(width, rs, i, row, p)
    ensures |image| == Area(height, width) * 4
    ensures Pixel(image, p) == RowColours(width, rs[i], row, p)
  {
    PictureShows(rs, width, height, image, p);
    FrameByte(rs, width, height, i, row, p, 0);
    FrameByte(rs, width, height, i, row, p, 1);
    FrameByte(rs, width, height, i, row, p, 2);
  }

  /** A pixel that no row writes is black and opaque. */
  lemma ImageIsBlackElsewhere(rs: seq<Rect>, width: nat, height: nat, image: seq<Byte>, p: nat)
    requires AllWellFormed(rs) && Picture(rs, width, height) == Ok(image)
    requires p < Area(height, width) && NoneReaches(width, rs, p)
    ensures |image| == Area(height, width) * 4 && Pixel(image, p) == [0, 0, 0, 255]
  {
    PictureShows(rs, width, height, image, p);
    FrameByteIsBlack(rs, width, height, p, 0);
    FrameByteIsBlack(rs, width, height, p, 1);
    FrameByteIsBlack(rs, width, height, p, 2);
  }

  lemma {:induction false} FindLastRow(width: nat, r: Rect, rows: nat, p: nat) returns (row: nat)
    requires rows <= r.h && exists k :: 0 <= k < rows && Writes(width, r, k, p)
    requires forall k :: rows <= k < r.h ==> !Writes(width, r, k, p)
    ensures LastRow(width, r, row, p)
  {
    if Writes(width, r, rows - 1, p) {
      row := rows - 1;
    } else {
      row := FindLastRow(width, r, rows - 1, p);
    }
  }

  /** These are all the pixels: one that some rectangle reaches has a last writer. */
  lemma {:induction false} FindLastWriter(width: nat, rs: seq<Rect>, n: nat, p: nat) returns (i: nat, row: nat)
    requires n <= |rs| && exists k :: 0 <= k < n && Reaches(width, rs[k], p)
    requires forall k :: n <= k < |rs| ==> !Reaches(width, rs[k], p)
    ensures LastWriter(width, rs, i, row, p)
  {
    if Reaches(width, rs[n - 1], p) {
      i := n - 1;
      row := FindLastRow(width, rs[i], rs[i].h, p);
    } else {
      i, row := FindLastWriter(width, rs, n - 1, p);
    }
  }

  // ---------------------------------------------------------------- inside the screen

  predicate InBounds(r: Rect, width: nat, height: nat) {
    r.x + r.w <= width && r.y + r.h <= height
  }

  predicate AllInBounds(rs: seq<Rect>, width: nat, height: nat) {
    forall i :: 0 <= i < |rs| ==> InBounds(rs[i], width, height)
  }

  predicate Covers(r: Rect, px: nat, py: nat) {
    r.x <= px < r.x + r.w && r.y <= py < r.y + r.h
  }

  /** The pixel at these coordinates, counted along the rows. */
  function PixelAt(width: nat, px: nat, py: nat): nat {
    Area(py, width) + px
  }

  /** The channel byte that a rectangle carries for a pixel it covers. */
  function Carried(r: Rect, px: nat, py: nat, c: nat): Byte
    requires WellFormed(r) && Covers(r, px, py) && c < 4
  {
    AreaGrows(py - r.y, r.h, r.w);
    PixelInside(PixelAt(r.w, px - r.x, py - r.y), Area(r.h, r.w), c);
    r.data[PixelAt(r.w, px - r.x, py - r.y) * 4 + c]
  }

  /** Positions in two rows agree only in the same row. */
  lemma SameRow(a: nat, b: nat, width: nat, lo: nat, hi: nat, i: nat)
    requires hi <= width && i < width
    ensures Area(a, width) + lo <= Area(b, width) + i < Area(a, width) + hi <==> a == b && lo <= i < hi
  {
    if a < b {
      AreaGrows(a, b, width);
    } else if b < a {
      AreaGrows(b, a, width);
    }
  }

  lemma WritesIff(r: Rect, width: nat, row: nat, px: nat, py: nat)
    requires r.x + r.w <= width && px < width
    ensures Writes(width, r, row, PixelAt(width, px, py)) <==> Covers(r, px, py) && row == py - r.y
  {
    SameRow(r.y + row, py, width, r.x, r.x + r.w, px);
  }

  lemma ReachesIffCovers(r: Rect, width: nat, px: nat, py: nat)
    requires r.x + r.w <= width && px < width
    ensures Reaches(width, r, PixelAt(width, px, py)) <==> Covers(r, px, py)
  {
    if Covers(r, px, py) {
      WritesIff(r, width, py - r.y, px, py);
    }
    if row :| 0 <= row < r.h && Writes(width, r, row, PixelAt(width, px, py)) {
      WritesIff(r, width, row, px, py);
    }
  }

  /** Rectangle `last` covers the pixel and no later one does. */
  predicate LastCovering(rs: seq<Rect>, last: nat, px: nat, py: nat) {
    last < |rs| && Covers(rs[last], px, py) && forall j :: last < j < |rs| ==> !Covers(rs[j], px, py)
  }

  lemma CoveredByRow(r: Rect, width: nat, px: nat, py: nat)
    requires r.x + r.w <= width && px < width && Covers(r, px, py)
    ensures LastRow(width, r, py - r.y, PixelAt(width, px, py))
  {
    WritesIff(r, width, py - r.y, px, py);
    forall later | py - r.y < later < r.h ensures !Writes(width, r, later, PixelAt(width, px, py)) {
      WritesIff(r, width, later, px, py);
    }
  }

  lemma LastCoveringWrites(rs: seq<Rect>, width: nat, height: nat, last: nat, px: nat, py: nat)
    requires AllInBounds(rs, width, height) && px < width && LastCovering(rs, last, px, py)
    ensures LastWriter(width, rs, last, py - rs[last].y, PixelAt(width, px, py))
  {
    CoveredByRow(rs[last], width, px, py);
    forall j | last < j < |rs| ensures !Reaches(width, rs[j], PixelAt(width, px, py)) {
      ReachesIffCovers(rs[j], width, px, py);
    }
  }

  lemma RowByteIsCarried(r: Rect, width: nat, px: nat, py: nat, c: nat)
    requires WellFormed(r) && Covers(r, px, py) && Writes(width, r, py - r.y, PixelAt(width, px, py)) && c < 4
    ensures RowByte(width, r, py - r.y, PixelAt(width, px, py), c) == Carried(r, px, py, c)
  {
  }

  lemma InBoundsFits(r: Rect, width: nat, height: nat)
    requires InBounds(r, width, height)
    ensures Fits(r, width, Area(height, width))
  {
    if r.h > 0 {
      AreaGrows(r.y + r.h - 1, height, width);
    }
  }

  /** Inside the screen, the update never fails. */
  lemma InBoundsSucceeds(rs: seq<Rect>, width: nat, height: nat)
    requires AllWellFormed(rs) && AllInBounds(rs, width, height)
    ensures Picture(rs, width, height).Ok?
  {
    forall i | 0 <= i < |rs| ensures Fits(rs[i], width, Area(height, width)) {
      InBoundsFits(rs[i], width, height);
    }
    UpdateSucceedsIff(rs, width, height);
  }

  /** The pixel in the colours the rectangle carries for it, opaque. */
  function CarriedColours(r: Rect, px: nat, py: nat): seq<Byte>
    requires WellFormed(r) && Covers(r, px, py)
  {
    [Carried(r, px, py, 2), Carried(r, px, py, 1), Carried(r, px, py, 0), 255]
  }

  lemma RowColoursAreCarried(r: Rect, width: nat, px: nat, py: nat)
    requires WellFormed(r) && Covers(r, px, py) && Writes(width, r, py - r.y, PixelAt(width, px, py))
    ensures RowColours(width, r, py - r.y, PixelAt(width, px, py)) == CarriedColours(r, px, py)
  {
    RowByteIsCarried(r, width, px, py, 0);
    RowByteIsCarried(r, width, px, py, 1);
    RowByteIsCarried(r, width, px, py, 2);
  }

  lemma LastCoveringColours(rs: seq<Rect>, width: nat, height: nat, last: nat, px: nat, py: nat)
    requires AllWellFormed(rs) && AllInBounds(rs, width, height) && px < width && LastCovering(rs, last, px, py)
    ensures LastWriter(width, rs, last, py - rs[last].y, PixelAt(width, px, py))
    ensures RowColours(width, rs[last], py - rs[last].y, PixelAt(width, px, py)) == CarriedColours(rs[last], px, py)
  {
    LastCoveringWrites(rs, width, height, last, px, py);
    RowColoursAreCarried(rs[last], width, px, py);
  }

  lemma OnScreen(width: nat, height: nat, px: nat, py: nat)
    requires px < width && py < height
    ensures PixelAt(width, px, py) < Area(height, width)
  {
    AreaGrows(py, height, width);
  }

  /** Inside the screen every pixel is the red, green and blue of the last rectangle that covers it, opaque. */
  lemma ImageShowsLastWriter(rs: seq<Rect>, width: nat, height: nat, image: seq<Byte>, last: nat, px: nat, py: nat)
    requires AllWellFormed(rs) && Picture(rs, width, height) == Ok(image)
    requires AllInBounds(rs, width, height) && px < width && py < height && LastCovering(rs, last, px, py)
    ensures |image| == Area(height, width) * 4 && PixelAt(width, px, py) < Area(height, width)
    ensures Pixel(image, PixelAt(width, px, py)) == CarriedColours(rs[last], px, py)
  {
    OnScreen(width, height, px, py);
    LastCoveringColours(rs, width, height, last, px, py);
    ImageShowsLastRow(rs, width, height, image, last, py - rs[last].y, PixelAt(width, px, py));
  }

  /** A column past the right edge lands in the next row. */
  lemma RightEdgeWraps(r: Rect, width: nat, row: nat, dx: nat)
    requires row < r.h && dx < r.w && r.x + dx >= width
    ensures Writes(width, r, row, PixelAt(width, r.x + dx - width, r.y + row + 1))
  {
  }
}
