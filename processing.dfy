/**
 * The backend reader's packet decoder. A raw packet from the serial queue
 * carries a trace type in its first little-endian 32-bit word; the decoder
 * picks the matching fixed layout (ENTER, EXIT or PANIC) and reads it,
 * little-endian, from the packet less its last two bytes. A read
 * that runs short leaves the entry zeroed and is tolerated, since the error
 * text of a short read mentions "EOF".
 */
module Processing {
  import opened Wrappers

  newtype u8 = x: int | 0 <= x < 0x100
  newtype u32 = x: int | 0 <= x < 0x1_0000_0000

  /** The packet size the decoder is declared with. */
  const RawPacketSize: int := 68
  /**
   * The packet size the serial reader queues: a 74-byte message whose
   * trailing `\r\n` was checked and cut off, so no stop sequence remains.
   */
  const ReaderPacketSize: int := 72
  /** How many bytes at the end of a packet the decoder leaves unread. */
  const DroppedTailSize: int := 2

  const EnterType: u32 := 0
  const ExitType: u32 := 1
  const PanicType: u32 := 2

  /** Sizes of the layouts, padding included. */
  const HeaderSize: int := 16
  const EnterSize: int := 52
  const ExitSize: int := 52
  const PanicSize: int := 68

  const FuncArgCount: int := 4
  const FuncNameSize: int := 16
  const ExceptionReasonSize: int := 48

  /** The common header: type word, core, three padding bytes, timestamp, trace id. */
  datatype GeneralEntry = GeneralEntry(traceType: u32, coreId: u8, timestamp: u32, traceId: u32)

  /** Function entry: header, value types, argument count, two padding bytes, four arguments, name. */
  datatype EnterEntry = EnterEntry(header: GeneralEntry, valueTypes: u8, argCount: u8,
                                   funcArgs: seq<u32>, funcName: seq<u8>)

  /** Function exit: header, value types, three padding bytes, return value, twelve padding bytes, name. */
  datatype ExitEntry = ExitEntry(header: GeneralEntry, valueTypes: u8, returnVal: u32, funcName: seq<u8>)

  /** Fault: header, faulting program counter, reason text. */
  datatype PanicEntry = PanicEntry(header: GeneralEntry, faultingPC: u32, exceptionReason: seq<u8>)

  /** The array fields have their declared lengths. */
  predicate EnterShaped(e: EnterEntry) {
    |e.funcArgs| == FuncArgCount && |e.funcName| == FuncNameSize
  }

  predicate ExitShaped(e: ExitEntry) {
    |e.funcName| == FuncNameSize
  }

  predicate PanicShaped(e: PanicEntry) {
    |e.exceptionReason| == ExceptionReasonSize
  }

  /** Zero values: what an entry holds before it is read into. */
  const ZeroHeader: GeneralEntry := GeneralEntry(0, 0, 0, 0)

  function ZeroEnter(): (e: EnterEntry)
    ensures EnterShaped(e)
  {
    EnterEntry(ZeroHeader, 0, 0, seq(FuncArgCount, _ => 0), seq(FuncNameSize, _ => 0))
  }

  function ZeroExit(): (e: ExitEntry)
    ensures ExitShaped(e)
  {
    ExitEntry(ZeroHeader, 0, 0, seq(FuncNameSize, _ => 0))
  }

  function ZeroPanic(): (e: PanicEntry)
    ensures PanicShaped(e)
  {
    PanicEntry(ZeroHeader, 0, seq(ExceptionReasonSize, _ => 0))
  }

  // ---------------------------------------------------------------------
  // Little-endian words

  /** The 32-bit word whose little-endian bytes are `w`. */
  function LeU32(w: seq<u8>): u32
    requires |w| == 4
  {
    (w[0] as int + 0x100 * w[1] as int + 0x1_0000 * w[2] as int + 0x100_0000 * w[3] as int) as u32
  }

  /** The little-endian bytes of a 32-bit word. */
  function U32Bytes(x: u32): (w: seq<u8>)
    ensures |w| == 4
  {
    var n := x as int;
    [(n % 0x100) as u8, (n / 0x100 % 0x100) as u8, (n / 0x1_0000 % 0x100) as u8, (n / 0x100_0000) as u8]
  }

  lemma LeU32OfU32Bytes(x: u32)
    ensures LeU32(U32Bytes(x)) == x
  {
    var n := x as int;
    var b0, b1, b2, b3 := n % 0x100, n / 0x100 % 0x100, n / 0x1_0000 % 0x100, n / 0x100_0000;
    assert n / 0x100 == b1 + 0x100 * (n / 0x1_0000);
    assert n / 0x1_0000 == b2 + 0x100 * b3;
    assert n == b0 + 0x100 * (n / 0x100);
  }

  lemma U32BytesOfLeU32(w: seq<u8>)
    requires |w| == 4
    ensures U32Bytes(LeU32(w)) == w
  {
    var b0, b1, b2, b3 := w[0] as int, w[1] as int, w[2] as int, w[3] as int;
    var n2 := b2 + 0x100 * b3;
    var n1 := b1 + 0x100 * n2;
    var n := b0 + 0x100 * n1;
    assert n == LeU32(w) as int;
    SplitByte(b0, n1);
    SplitByte(b1, n2);
    SplitByte(b2, b3);
    assert n / 0x1_0000 == n1 / 0x100;
    assert n / 0x100_0000 == n2 / 0x100;
  }

  /** The low byte and the rest of `a + 256 * m`. */
  lemma SplitByte(a: int, m: int)
    requires 0 <= a < 0x100
    ensures (a + 0x100 * m) % 0x100 == a && (a + 0x100 * m) / 0x100 == m
  {
  }

  /** The four words at consecutive little-endian positions. */
  function LeU32s(b: seq<u8>): (r: seq<u32>)
    requires |b| % 4 == 0
    ensures |r| == |b| / 4
  {
    if b == [] then [] else [LeU32(b[..4])] + LeU32s(b[4..])
  }

  function U32sBytes(xs: seq<u32>): (b: seq<u8>)
    ensures |b| == 4 * |xs|
  {
    if xs == [] then [] else U32Bytes(xs[0]) + U32sBytes(xs[1..])
  }

  lemma {:induction false} LeU32sOfU32sBytes(xs: seq<u32>)
    ensures LeU32s(U32sBytes(xs)) == xs
  {
    if xs != [] {
      var b := U32sBytes(xs);
      assert b[..4] == U32Bytes(xs[0]);
      assert b[4..] == U32sBytes(xs[1..]);
      LeU32OfU32Bytes(xs[0]);
      LeU32sOfU32sBytes(xs[1..]);
    }
  }

  // ---------------------------------------------------------------------
  // The layouts, decoded and encoded

  function DecodeHeader(b: seq<u8>): GeneralEntry
    requires |b| == HeaderSize
  {
    GeneralEntry(LeU32(b[0..4]), b[4], LeU32(b[8..12]), LeU32(b[12..16]))
  }

  function EncodeHeader(h: GeneralEntry): (b: seq<u8>)
    ensures |b| == HeaderSize
  {
    U32Bytes(h.traceType) + [h.coreId, 0, 0, 0] + U32Bytes(h.timestamp) + U32Bytes(h.traceId)
  }

  function DecodeEnter(b: seq<u8>): (e: EnterEntry)
    requires |b| == EnterSize
    ensures EnterShaped(e)
  {
    EnterEntry(DecodeHeader(b[..16]), b[16], b[17], LeU32s(b[20..36]), b[36..52])
  }

  function EncodeEnter(e: EnterEntry): (b: seq<u8>)
    requires EnterShaped(e)
    ensures |b| == EnterSize
  {
    EncodeHeader(e.header) + [e.valueTypes, e.argCount, 0, 0] + U32sBytes(e.funcArgs) + e.funcName
  }

  function DecodeExit(b: seq<u8>): (e: ExitEntry)
    requires |b| == ExitSize
    ensures ExitShaped(e)
  {
    ExitEntry(DecodeHeader(b[..16]), b[16], LeU32(b[20..24]), b[36..52])
  }

  function EncodeExit(e: ExitEntry): (b: seq<u8>)
    requires ExitShaped(e)
    ensures |b| == ExitSize
  {
    EncodeHeader(e.header) + [e.valueTypes, 0, 0, 0] + U32Bytes(e.returnVal) + seq(12, _ => 0) + e.funcName
  }

  function DecodePanic(b: seq<u8>): (e: PanicEntry)
    requires |b| == PanicSize
    ensures PanicShaped(e)
  {
    PanicEntry(DecodeHeader(b[..16]), LeU32(b[16..20]), b[20..68])
  }

  function EncodePanic(e: PanicEntry): (b: seq<u8>)
    requires PanicShaped(e)
    ensures |b| == PanicSize
  {
    EncodeHeader(e.header) + U32Bytes(e.faultingPC) + e.exceptionReason
  }

  lemma HeaderRoundTrip(h: GeneralEntry)
    ensures DecodeHeader(EncodeHeader(h)) == h
  {
    var b := EncodeHeader(h);
    assert b[0..4] == U32Bytes(h.traceType);
    assert b[8..12] == U32Bytes(h.timestamp);
    assert b[12..16] == U32Bytes(h.traceId);
    LeU32OfU32Bytes(h.traceType);
    LeU32OfU32Bytes(h.timestamp);
    LeU32OfU32Bytes(h.traceId);
  }

  /** Decoding an encoded ENTER layout gives back the entry. */
  lemma EnterRoundTrip(e: EnterEntry)
    requires EnterShaped(e)
    ensures DecodeEnter(EncodeEnter(e)) == e
  {
    var b := EncodeEnter(e);
    assert b[..16] == EncodeHeader(e.header);
    assert b[20..36] == U32sBytes(e.funcArgs);
    assert b[36..52] == e.funcName;
    HeaderRoundTrip(e.header);
    LeU32sOfU32sBytes(e.funcArgs);
  }

  /** Decoding an encoded EXIT layout gives back the entry. */
  lemma ExitRoundTrip(e: ExitEntry)
    requires ExitShaped(e)
    ensures DecodeExit(EncodeExit(e)) == e
  {
    var b := EncodeExit(e);
    assert b[..16] == EncodeHeader(e.header);
    assert b[20..24] == U32Bytes(e.returnVal);
    assert b[36..52] == e.funcName;
    HeaderRoundTrip(e.header);
    LeU32OfU32Bytes(e.returnVal);
  }

  /** Decoding an encoded PANIC layout gives back the entry. */
  lemma PanicRoundTrip(e: PanicEntry)
    requires PanicShaped(e)
    ensures DecodePanic(EncodePanic(e)) == e
  {
    var b := EncodePanic(e);
    assert b[..16] == EncodeHeader(e.header);
    assert b[16..20] == U32Bytes(e.faultingPC);
    assert b[20..68] == e.exceptionReason;
    HeaderRoundTrip(e.header);
    LeU32OfU32Bytes(e.faultingPC);
  }

  // ---------------------------------------------------------------------
  // Reading

  /** The two ways a full read of a byte stream fails. */
  datatype ReadError = EOF | UnexpectedEOF

  /** The error text: "EOF" when nothing was left, "unexpected EOF" when only part was. */
  function ErrorText(e: ReadError): string {
    match e
    case EOF => "EOF"
    case UnexpectedEOF => "unexpected EOF"
  }

  /** `sub` occurs in `s` at position `i`. */
  predicate OccursAt(s: string, sub: string, i: int) {
    0 <= i && i + |sub| <= |s| && s[i..i + |sub|] == sub
  }

  /** `sub` occurs in `s`, as Go's `strings.Contains`. */
  function Contains(s: string, sub: string): (r: bool)
    ensures r <==> exists i :: OccursAt(s, sub, i)
  {
    if |s| < |sub| then false
    else if s[..|sub|] == sub then assert OccursAt(s, sub, 0); true
    else
      var r := Contains(s[1..], sub);
      forall i
        ensures OccursAt(s[1..], sub, i) <==> OccursAt(s, sub, i + 1)
      {
        if 0 <= i && i + |sub| <= |s[1..]| {
          assert s[1..][i..i + |sub|] == s[i + 1..i + 1 + |sub|];
        }
      }
      assert !OccursAt(s, sub, 0);
      assert (exists i :: OccursAt(s, sub, i)) ==> exists i :: OccursAt(s[1..], sub, i) by {
        if exists i :: OccursAt(s, sub, i) {
          var i :| OccursAt(s, sub, i);
          assert OccursAt(s[1..], sub, i - 1);
        }
      }
      r
  }

  /** A reader over an in-memory byte sequence with a read position. */
  class ByteReader {
    const data: seq<u8>
    var pos: nat

    constructor (data: seq<u8>)
      ensures this.data == data && pos == 0
    {
      this.data := data;
      pos := 0;
    }

    /**
     * Reads exactly `n` bytes. When fewer are left, it consumes them and fails
     * with EOF if there were none and UnexpectedEOF otherwise.
     */
    method ReadFull(n: nat) returns (buf: seq<u8>, err: Option<ReadError>)
      requires pos <= |data|
      modifies this`pos
      ensures pos <= |data|
      ensures old(pos) + n <= |data| ==> err.None? && buf == data[old(pos)..old(pos) + n] && pos == old(pos) + n
      ensures old(pos) + n > |data| ==> pos == |data| && err == Some(if old(pos) == |data| then EOF else UnexpectedEOF)
    {
      if pos + n <= |data| {
        buf := data[pos..pos + n];
        pos := pos + n;
        err := None;
      } else {
        buf := data[pos..];
        err := Some(if pos == |data| then EOF else UnexpectedEOF);
        pos := |data|;
      }
    }
  }

  /**
   * A full read of `size` bytes from the start of `body`: the bytes, or the
   * error a short read reports.
   */
  function ReadLayout(body: seq<u8>, size: nat): (r: (seq<u8>, Option<ReadError>))
    ensures r.1.None? <==> size <= |body|
    ensures r.1.None? ==> r.0 == body[..size]
  {
    if size <= |body| then (body[..size], None)
    else ([], Some(if |body| == 0 then EOF else UnexpectedEOF))
  }

  /** What one packet leads to. */
  datatype Outcome =
    | GotEnter(enter: EnterEntry)
    | GotExit(exit: ExitEntry)
    | GotPanic(panic: PanicEntry)
    | ReadFailed(message: string)
    | Unsure

  /** The trace type: the packet's first word, read as little-endian. */
  function TypeWord(packet: seq<u8>): u32
    requires |packet| >= 4
  {
    LeU32(packet[..4])
  }

  /** The bytes the layouts are read from: the packet without its last two bytes. */
  function Readable(packet: seq<u8>): (b: seq<u8>)
    requires |packet| >= DroppedTailSize
    ensures |b| == |packet| - DroppedTailSize
  {
    packet[..|packet| - DroppedTailSize]
  }

  /** A read error ends processing unless its text mentions EOF. */
  predicate Fatal(err: Option<ReadError>) {
    err.Some? && !Contains(ErrorText(err.value), "EOF")
  }

  /** What processing a packet leads to. */
  function Dispatch(packet: seq<u8>): (r: Outcome)
    requires |packet| >= 4
    ensures r.Unsure? <==> TypeWord(packet) > PanicType
    ensures r.GotEnter? ==> TypeWord(packet) == EnterType
    ensures r.GotExit? ==> TypeWord(packet) == ExitType
    ensures r.GotPanic? ==> TypeWord(packet) == PanicType
  {
    var body := Readable(packet);
    var t := TypeWord(packet);
    if t == EnterType then
      var (bytes, err) := ReadLayout(body, EnterSize);
      if Fatal(err) then ReadFailed("Error reading ENTER entry: " + ErrorText(err.value))
      else GotEnter(if err.None? then DecodeEnter(bytes) else ZeroEnter())
    else if t == ExitType then
      var (bytes, err) := ReadLayout(body, ExitSize);
      if Fatal(err) then ReadFailed("Error reading EXIT entry: " + ErrorText(err.value))
      else GotExit(if err.None? then DecodeExit(bytes) else ZeroExit())
    else if t == PanicType then
      var (bytes, err) := ReadLayout(body, PanicSize);
      if Fatal(err) then ReadFailed("Error reading PANIC entry: " + ErrorText(err.value))
      else GotPanic(if err.None? then DecodePanic(bytes) else ZeroPanic())
    else Unsure
  }

  /**
   * Processing one packet: dispatch on the type word, read the matching
   * layout from the packet less its last two bytes into a zeroed entry, and
   * hand the entry on unless the read failed for a reason other than EOF.
   */
  method Process(tempBuf: seq<u8>) returns (outcome: Outcome)
    requires |tempBuf| >= 4
    ensures outcome == Dispatch(tempBuf)
  {
    var streamReader := new ByteReader(tempBuf[..|tempBuf| - 2]);
    var traceType := LeU32(tempBuf[..4]);
    if traceType == EnterType {
      var entry := ZeroEnter();
      var bytes, err := streamReader.ReadFull(EnterSize as nat);
      if err.None? {
        entry := DecodeEnter(bytes);
      } else if !Contains(ErrorText(err.value), "EOF") {
        return ReadFailed("Error reading ENTER entry: " + ErrorText(err.value));
      }
      outcome := GotEnter(entry);
    } else if traceType == ExitType {
      var entry := ZeroExit();
      var bytes, err := streamReader.ReadFull(ExitSize as nat);
      if err.None? {
        entry := DecodeExit(bytes);
      } else if !Contains(ErrorText(err.value), "EOF") {
        return ReadFailed("Error reading EXIT entry: " + ErrorText(err.value));
      }
      outcome := GotExit(entry);
    } else if traceType == PanicType {
      var entry := ZeroPanic();
      var bytes, err := streamReader.ReadFull(PanicSize as nat);
      if err.None? {
        entry := DecodePanic(bytes);
      } else if !Contains(ErrorText(err.value), "EOF") {
        return ReadFailed("Error reading PANIC entry: " + ErrorText(err.value));
      }
      outcome := GotPanic(entry);
    } else {
      outcome := Unsure;
    }
  }

  // ---------------------------------------------------------------------
  // Properties of processing

  /** Both read errors mention EOF, so no read error is fatal. */
  lemma ReadErrorsMentionEOF(e: ReadError)
    ensures Contains(ErrorText(e), "EOF")
  {
    match e
    case EOF =>
      assert OccursAt(ErrorText(e), "EOF", 0);
    case UnexpectedEOF =>
      assert OccursAt(ErrorText(e), "EOF", 11);
  }

  /**
   * The type word alone picks the handler: 0 ENTER, 1 EXIT, 2 PANIC, and any
   * other word nothing; a read never fails processing.
   */
  lemma DispatchByType(packet: seq<u8>)
    requires |packet| >= 4
    ensures Dispatch(packet).GotEnter? <==> TypeWord(packet) == EnterType
    ensures Dispatch(packet).GotExit? <==> TypeWord(packet) == ExitType
    ensures Dispatch(packet).GotPanic? <==> TypeWord(packet) == PanicType
    ensures Dispatch(packet).Unsure? <==> TypeWord(packet) > PanicType
    ensures !Dispatch(packet).ReadFailed?
  {
    ReadErrorsMentionEOF(EOF);
    ReadErrorsMentionEOF(UnexpectedEOF);
  }

  /** The last two bytes of a packet never affect the outcome: they are never read. */
  lemma LastTwoBytesIgnored(p: seq<u8>, q: seq<u8>)
    requires |p| == |q| >= 4
    requires Readable(p) == Readable(q) && p[..4] == q[..4]
    ensures Dispatch(p) == Dispatch(q)
  {
  }

  /**
   * A layout that fits in the readable bytes is decoded exactly: a packet that begins
   * with an encoded ENTER or EXIT entry and has room for it before its last
   * two bytes yields that entry.
   */
  lemma EnterAndExitDecoded(packet: seq<u8>, enter: EnterEntry, exit: ExitEntry)
    requires |packet| >= EnterSize + DroppedTailSize
    ensures (EnterShaped(enter) && enter.header.traceType == EnterType && packet[..EnterSize] == EncodeEnter(enter))
              ==> Dispatch(packet) == GotEnter(enter)
    ensures (ExitShaped(exit) && exit.header.traceType == ExitType && packet[..ExitSize] == EncodeExit(exit))
              ==> Dispatch(packet) == GotExit(exit)
  {
    if EnterShaped(enter) && enter.header.traceType == EnterType && packet[..EnterSize] == EncodeEnter(enter) {
      assert packet[..4] == EncodeEnter(enter)[..4] == U32Bytes(EnterType);
      LeU32OfU32Bytes(EnterType);
      assert Readable(packet)[..EnterSize] == EncodeEnter(enter);
      EnterRoundTrip(enter);
    }
    if ExitShaped(exit) && exit.header.traceType == ExitType && packet[..ExitSize] == EncodeExit(exit) {
      assert packet[..4] == EncodeExit(exit)[..4] == U32Bytes(ExitType);
      LeU32OfU32Bytes(ExitType);
      assert Readable(packet)[..ExitSize] == EncodeExit(exit);
      ExitRoundTrip(exit);
    }
  }

  /**
   * As declared, a packet holds 68 bytes and 66 of them are read, two fewer than the
   * PANIC layout: every PANIC packet is handed on as an all-zero entry, whose
   * type word even reads ENTER.
   */
  lemma PanicLostInRawPackets(packet: seq<u8>)
    requires |packet| == RawPacketSize && TypeWord(packet) == PanicType
    ensures Dispatch(packet) == GotPanic(ZeroPanic())
    ensures Dispatch(packet).panic.header.traceType != PanicType
  {
    ReadErrorsMentionEOF(UnexpectedEOF);
  }

  /**
   * With the 72-byte packets the reader queues, a packet that begins with an
   * encoded PANIC entry yields that entry.
   */
  lemma PanicDecodedInReaderPackets(packet: seq<u8>, e: PanicEntry)
    requires |packet| == ReaderPacketSize
    requires PanicShaped(e) && e.header.traceType == PanicType
    requires packet[..PanicSize] == EncodePanic(e)
    ensures Dispatch(packet) == GotPanic(e)
  {
    assert packet[..4] == EncodePanic(e)[..4] == U32Bytes(PanicType);
    LeU32OfU32Bytes(PanicType);
    assert Readable(packet)[..PanicSize] == EncodePanic(e);
    PanicRoundTrip(e);
  }
}
