/**
 The 80 fixed bytes that open every frame, as a record of raw fields and as bytes.
 The four reserved positions are fields of the record, so that the two forms are in
 one-to-one correspondence.
 */
module FixedHeader {
  import opened ByteLayout

  const MAGIC: Bytes := [0x59, 0x4C, 0x4E, 0x4B]
  const FIXED_HEADER_SIZE := 80
  const TRAILER_SIZE := 4

  datatype Header = Header(
    prologue: Prologue,
    trace: Trace,
    lengths: Lengths,
    typing: Typing)

  /** Bytes 0 to 19. */
  datatype Prologue = Prologue(
    major: byte,
    version: byte,
    flags: u16,
    headerLen: u16,
    payloadLen: u32,
    qos: byte,
    family: byte,
    operation: byte,
    reserved17: byte,
    schema: u16)

  /** Bytes 20 to 59. */
  datatype Trace = Trace(
    sessionId: u64,
    messageId: u64,
    correlationId: u64,
    createdAtMs: u64,
    ttlMs: u32,
    keyEpoch: u32)

  /** Bytes 60 to 71: the lengths and counts of the variable part. */
  datatype Lengths = Lengths(
    endpoint: u16,
    entity: u16,
    targets: u16,
    auth: u16,
    profile: u16,
    typeName: u16)

  /** Bytes 72 to 79. */
  datatype Typing = Typing(scope: byte, reserved73: byte, major: u16, minor: u16, reserved78: u16)

  function PrologueBytes(p: Prologue): (r: Bytes)
    ensures |r| == 20
  {
    MAGIC + [p.major, p.version]
    + (Le(p.flags, 2)
       + (Le(p.headerLen, 2)
          + (Le(p.payloadLen, 4)
             + ([p.qos, p.family, p.operation, p.reserved17] + Le(p.schema, 2)))))
  }

  function TraceBytes(t: Trace): (r: Bytes)
    ensures |r| == 40
  {
    Le(t.sessionId, 8)
    + (Le(t.messageId, 8)
       + (Le(t.correlationId, 8)
          + (Le(t.createdAtMs, 8) + (Le(t.ttlMs, 4) + Le(t.keyEpoch, 4)))))
  }

  function LengthsBytes(l: Lengths): (r: Bytes)
    ensures |r| == 12
  {
    Le(l.endpoint, 2)
    + (Le(l.entity, 2)
       + (Le(l.targets, 2) + (Le(l.auth, 2) + (Le(l.profile, 2) + Le(l.typeName, 2)))))
  }

  function TypingBytes(t: Typing): (r: Bytes)
    ensures |r| == 8
  {
    [t.scope]
    + ([t.reserved73]
       + (Le(t.major, 2) + (Le(t.minor, 2) + Le(t.reserved78, 2))))
  }

  function HeaderBytes(h: Header): (r: Bytes)
    ensures |r| == FIXED_HEADER_SIZE
  {
    PrologueBytes(h.prologue)
    + (TraceBytes(h.trace) + (LengthsBytes(h.lengths) + TypingBytes(h.typing)))
  }

  predicate HasMagic(data: Bytes)
  {
    |data| >= 4 && data[0] == MAGIC[0] && data[1] == MAGIC[1] && data[2] == MAGIC[2]
    && data[3] == MAGIC[3]
  }

  function ParsePrologue(data: Bytes): Prologue
    requires |data| >= 20
  {
    Prologue(data[4], data[5], U16At(data, 6), U16At(data, 8), U32At(data, 10), data[14],
             data[15], data[16], data[17], U16At(data, 18))
  }

  function ParseTrace(data: Bytes): Trace
    requires |data| >= 60
  {
    Trace(U64At(data, 20), U64At(data, 28), U64At(data, 36), U64At(data, 44), U32At(data, 52),
          U32At(data, 56))
  }

  function ParseLengths(data: Bytes): Lengths
    requires |data| >= 72
  {
    Lengths(U16At(data, 60), U16At(data, 62), U16At(data, 64), U16At(data, 66),
            U16At(data, 68), U16At(data, 70))
  }

  function ParseTyping(data: Bytes): Typing
    requires |data| >= FIXED_HEADER_SIZE
  {
    Typing(data[72], data[73], U16At(data, 74), U16At(data, 76), U16At(data, 78))
  }

  function ParseHeader(data: Bytes): Header
    requires |data| >= FIXED_HEADER_SIZE
  {
    Header(ParsePrologue(data), ParseTrace(data), ParseLengths(data), ParseTyping(data))
  }

  // Reading back what was written

  /** A field whose bytes sit at `at` reads as the number that was written. */
  lemma FieldReads(data: Bytes, at: nat, v: nat, n: nat)
    requires at + n <= |data| && v < Pow256(n)
    requires data[at..at + n] == Le(v, n)
    ensures FieldLe(data, at, n) == v
  {
    FromLeOfLe(v, n);
  }

  lemma PrologueReads(data: Bytes, p: Prologue)
    requires |data| >= 20 && data[0..20] == PrologueBytes(p)
    ensures HasMagic(data) && ParsePrologue(data) == p
  {
    PowersOf256();
    var opening, kinds := MAGIC + [p.major, p.version], [p.qos, p.family, p.operation, p.reserved17];
    SixSlices(data, 0, opening, Le(p.flags, 2), Le(p.headerLen, 2), Le(p.payloadLen, 4), kinds,
              Le(p.schema, 2));
    assert forall i :: 0 <= i < 6 ==> data[i] == data[0..6][i] == opening[i];
    assert forall i :: 0 <= i < 4 ==> data[14 + i] == data[14..18][i] == kinds[i];
    FieldReads(data, 6, p.flags, 2);
    FieldReads(data, 8, p.headerLen, 2);
    FieldReads(data, 10, p.payloadLen, 4);
    FieldReads(data, 18, p.schema, 2);
  }

  lemma TraceReads(data: Bytes, t: Trace)
    requires |data| >= 60 && data[20..60] == TraceBytes(t)
    ensures ParseTrace(data) == t
  {
    PowersOf256();
    SixSlices(data, 20, Le(t.sessionId, 8), Le(t.messageId, 8), Le(t.correlationId, 8),
              Le(t.createdAtMs, 8), Le(t.ttlMs, 4), Le(t.keyEpoch, 4));
    FieldReads(data, 20, t.sessionId, 8);
    FieldReads(data, 28, t.messageId, 8);
    FieldReads(data, 36, t.correlationId, 8);
    FieldReads(data, 44, t.createdAtMs, 8);
    FieldReads(data, 52, t.ttlMs, 4);
    FieldReads(data, 56, t.keyEpoch, 4);
  }

  lemma LengthsReads(data: Bytes, l: Lengths)
    requires |data| >= 72 && data[60..72] == LengthsBytes(l)
    ensures ParseLengths(data) == l
  {
    PowersOf256();
    SixSlices(data, 60, Le(l.endpoint, 2), Le(l.entity, 2), Le(l.targets, 2), Le(l.auth, 2),
              Le(l.profile, 2), Le(l.typeName, 2));
    FieldReads(data, 60, l.endpoint, 2);
    FieldReads(data, 62, l.entity, 2);
    FieldReads(data, 64, l.targets, 2);
    FieldReads(data, 66, l.auth, 2);
    FieldReads(data, 68, l.profile, 2);
    FieldReads(data, 70, l.typeName, 2);
  }

  lemma TypingReads(data: Bytes, t: Typing)
    requires |data| >= 80 && data[72..80] == TypingBytes(t)
    ensures ParseTyping(data) == t
  {
    PowersOf256();
    assert Le(t.reserved78, 2) + [] == Le(t.reserved78, 2);
    SixSlices(data, 72, [t.scope], [t.reserved73], Le(t.major, 2), Le(t.minor, 2),
              Le(t.reserved78, 2), []);
    assert data[72] == data[72..73][0] && data[73] == data[73..74][0];
    FieldReads(data, 74, t.major, 2);
    FieldReads(data, 76, t.minor, 2);
    FieldReads(data, 78, t.reserved78, 2);
  }

  /** Printing a header and parsing it gives every field back. */
  lemma HeaderReads(data: Bytes, h: Header)
    requires |data| >= FIXED_HEADER_SIZE && data[..FIXED_HEADER_SIZE] == HeaderBytes(h)
    ensures HasMagic(data) && ParseHeader(data) == h
  {
    hide PrologueBytes, TraceBytes, LengthsBytes, TypingBytes;
    assert data[0..80] == data[..80];
    var none: Bytes := [];
    assert TypingBytes(h.typing) + (none + none) == TypingBytes(h.typing);
    SixSlices(data, 0, PrologueBytes(h.prologue), TraceBytes(h.trace), LengthsBytes(h.lengths),
              TypingBytes(h.typing), [], []);
    PrologueReads(data, h.prologue);
    TraceReads(data, h.trace);
    LengthsReads(data, h.lengths);
    TypingReads(data, h.typing);
  }

  // Writing back what was read

  lemma FieldWrites(data: Bytes, at: nat, n: nat)
    requires at + n <= |data|
    ensures Le(FieldLe(data, at, n), n) == data[at..at + n]
  {
    LeOfFromLe(data[at..at + n]);
  }

  lemma PrologueWrites(data: Bytes)
    requires |data| >= 20 && HasMagic(data)
    ensures PrologueBytes(ParsePrologue(data)) == data[0..20]
  {
    FieldWrites(data, 6, 2);
    FieldWrites(data, 8, 2);
    FieldWrites(data, 10, 4);
    FieldWrites(data, 18, 2);
    assert data[0..6] == MAGIC + [data[4], data[5]];
    assert data[14..18] == [data[14], data[15], data[16], data[17]];
    SixJoin(data, 0, 6, 8, 10, 14, 18, 20);
  }

  lemma TraceWrites(data: Bytes)
    requires |data| >= 60
    ensures TraceBytes(ParseTrace(data)) == data[20..60]
  {
    FieldWrites(data, 20, 8);
    FieldWrites(data, 28, 8);
    FieldWrites(data, 36, 8);
    FieldWrites(data, 44, 8);
    FieldWrites(data, 52, 4);
    FieldWrites(data, 56, 4);
    SixJoin(data, 20, 28, 36, 44, 52, 56, 60);
  }

  lemma LengthsWrites(data: Bytes)
    requires |data| >= 72
    ensures LengthsBytes(ParseLengths(data)) == data[60..72]
  {
    FieldWrites(data, 60, 2);
    FieldWrites(data, 62, 2);
    FieldWrites(data, 64, 2);
    FieldWrites(data, 66, 2);
    FieldWrites(data, 68, 2);
    FieldWrites(data, 70, 2);
    SixJoin(data, 60, 62, 64, 66, 68, 70, 72);
  }

  lemma TypingWrites(data: Bytes)
    requires |data| >= 80
    ensures TypingBytes(ParseTyping(data)) == data[72..80]
  {
    FieldWrites(data, 74, 2);
    FieldWrites(data, 76, 2);
    FieldWrites(data, 78, 2);
    assert data[72..73] == [data[72]] && data[73..74] == [data[73]];
    assert data[78..80] + data[80..80] == data[78..80];
    SixJoin(data, 72, 73, 74, 76, 78, 80, 80);
  }

  /** Parsing any 80 bytes that carry the magic and printing the fields reproduces them. */
  lemma HeaderWrites(data: Bytes)
    requires |data| >= FIXED_HEADER_SIZE && HasMagic(data)
    ensures HeaderBytes(ParseHeader(data)) == data[..FIXED_HEADER_SIZE]
  {
    hide PrologueBytes, TraceBytes, LengthsBytes, TypingBytes;
    PrologueWrites(data);
    TraceWrites(data);
    LengthsWrites(data);
    TypingWrites(data);
    assert data[0..80] == data[..80];
    assert data[72..80] + (data[80..80] + data[80..80]) == data[72..80];
    SixJoin(data, 0, 20, 60, 72, 80, 80, 80);
  }
}
