/** The batches of frames on a data channel: their encoding, encryption and size limit. */
module FtpProtocol {
  import opened Bytes
  import opened Ciphers
  import opened FtpFrames
  import opened Sequences
  import opened Streams
  import opened Wrappers

  const BATCH_MAGIC: u32 := 0xFAB1C0DE

  const MAX_BATCH_WIRE := 4 * 1024 * 1024


  datatype Error =
    | FrameTooShort | FrameTruncated | NotAuthentic | BatchTooShort | BadMagic
    | TruncatedAt(i: nat) | OverrunAt(i: nat) | InvalidLength(n: u32) | ReadFailed(e: ReadError)

  // ---------- one frame ----------

  function FrameBytes(f: Frame): (b: seq<byte>)
    ensures |b| == FRAME_HEADER_SIZE + |f.data|
  {
    Be32(f.connId) + [f.typ] + Be32(f.seqNo) + Be32(ToU32(|f.data|)) + f.data
  }

  method PutBe32(out: array<byte>, off: nat, v: u32)
    requires off + 4 <= out.Length
    modifies out
    ensures out[..] == old(out[..off]) + Be32(v) + old(out[off + 4..])
  {
    var b := Be32(v);
    out[off], out[off + 1], out[off + 2], out[off + 3] := b[0], b[1], b[2], b[3];
  }

  /** The header's fields byte by byte, and the data behind them. */
  ghost predicate IsFrame(b: seq<byte>, f: Frame) {
    && |b| == 13 + |f.data|
    && IsBe32(b[..4], f.connId) && b[4] == f.typ && IsBe32(b[5..9], f.seqNo) && IsBe32(b[9..13], ToU32(|f.data|))
    && b[13..] == f.data
  }

  lemma FrameIsLaidOut(f: Frame)
    ensures IsFrame(FrameBytes(f), f)
  {
    var a, b, d, bytes := Be32(f.connId), Be32(f.seqNo), Be32(ToU32(|f.data|)), FrameBytes(f);
    Be32Bytes(f.connId);
    Be32Bytes(f.seqNo);
    Be32Bytes(ToU32(|f.data|));
    assert bytes[..4] == a && bytes[5..9] == b && bytes[9..13] == d;
  }

  method EncodeFrame(f: Frame) returns (out: array<byte>)
    ensures fresh(out) && out[..] == FrameBytes(f) && IsFrame(out[..], f)
  {
    FrameIsLaidOut(f);
    var a, b, d := Be32(f.connId), Be32(f.seqNo), Be32(ToU32(|f.data|));
    out := new byte[FRAME_HEADER_SIZE + |f.data|](_ => 0);
    PutBe32(out, 0, f.connId);
    assert out[..4] == a;
    out[4] := f.typ;
    assert out[..5] == a + [f.typ];
    PutBe32(out, 5, f.seqNo);
    assert out[..9] == a + [f.typ] + b;
    PutBe32(out, 9, ToU32(|f.data|));
    ghost var header := out[..13];
    assert header == a + [f.typ] + b + d;
    forall i | 0 <= i < |f.data| {
      out[13 + i] := f.data[i];
    }
    assert out[..] == header + f.data;
  }

  function DecodeFrame(b: seq<byte>): Result<Frame, Error>
  {
    if |b| < FRAME_HEADER_SIZE then Err(FrameTooShort)
    else
      var dl := FromBe32(b[9..13]);
      if dl > |b| - FRAME_HEADER_SIZE then Err(FrameTruncated)
      else Ok(Frame(FromBe32(b[..4]), b[4], FromBe32(b[5..9]), b[FRAME_HEADER_SIZE..FRAME_HEADER_SIZE + dl]))
  }

  /** What a frame decodes to, byte by byte, or why not. */
  lemma DecodedByBytes(b: seq<byte>)
    ensures match DecodeFrame(b)
            case Ok(f) =>
              && |b| >= 13 + |f.data| && b[13..13 + |f.data|] == f.data
              && IsBe32(b[..4], f.connId) && b[4] == f.typ && IsBe32(b[5..9], f.seqNo) && IsBe32(b[9..13], |f.data|)
            case Err(e) =>
              if |b| < 13 then e == FrameTooShort
              else e == FrameTruncated && FromBe32(b[9..13]) > |b| - 13
  {
    if |b| >= 13 {
      FromBe32Bytes(b[..4]);
      FromBe32Bytes(b[5..9]);
      FromBe32Bytes(b[9..13]);
    }
  }

  /** The frame's encoded length fits the four bytes that announce it. */
  predicate Encodable(f: Frame) {
    FRAME_HEADER_SIZE + |f.data| <= MAX_U32
  }

  lemma FrameRoundTrip(f: Frame)
    requires Encodable(f)
    ensures DecodeFrame(FrameBytes(f)) == Ok(f)
  {
    var b := FrameBytes(f);
    Be32RoundTrip(f.connId);
    Be32RoundTrip(f.seqNo);
    Be32RoundTrip(|f.data|);
    assert b[..4] == Be32(f.connId) && b[5..9] == Be32(f.seqNo) && b[9..13] == Be32(|f.data|);
    assert b[13..13 + |f.data|] == f.data;
  }

  // ---------- a batch ----------

  function Entry(f: Frame): seq<byte> {
    Be32(ToU32(|FrameBytes(f)|)) + FrameBytes(f)
  }

  function Entries(frames: seq<Frame>): seq<byte> {
    if frames == [] then [] else Entry(frames[0]) + Entries(frames[1..])
  }

  /** The size of the entries of a batch. */
  function EntriesSize(frames: seq<Frame>): nat {
    if frames == [] then 0 else 4 + FRAME_HEADER_SIZE + |frames[0].data| + EntriesSize(frames[1..])
  }

  lemma {:induction false} EntriesHaveSize(frames: seq<Frame>)
    ensures |Entries(frames)| == EntriesSize(frames) >= |frames| * 17
    ensures forall f :: f in frames ==> |f.data| <= EntriesSize(frames)
    decreases frames
  {
    if frames != [] {
      EntriesHaveSize(frames[1..]);
    }
  }

  function BatchBytes(frames: seq<Frame>, pad: seq<byte>): seq<byte> {
    Be32(BATCH_MAGIC) + Be32(ToU32(|frames|)) + Entries(frames) + pad
  }

  lemma {:induction false} EntriesAppend(frames: seq<Frame>, f: Frame)
    ensures Entries(frames + [f]) == Entries(frames) + Entry(f)
    decreases frames
  {
    if frames == [] {
      assert [f][1..] == [] && Entry(f) + [] == Entry(f);
    } else {
      assert (frames + [f])[1..] == frames[1..] + [f];
      EntriesAppend(frames[1..], f);
    }
  }

  /** Frames one after the other, each behind its length. */
  ghost predicate AreEntries(b: seq<byte>, frames: seq<Frame>)
    decreases frames
  {
    if frames == [] then b == []
    else
      var n := 13 + |frames[0].data|;
      && |b| >= 4 + n && IsBe32(b[..4], ToU32(n)) && IsFrame(b[4..4 + n], frames[0])
      && AreEntries(b[4 + n..], frames[1..])
  }

  /** Magic and count byte by byte, the frames, the padding. */
  ghost predicate IsBatch(b: seq<byte>, frames: seq<Frame>, pad: seq<byte>) {
    && |b| >= 8 + |pad|
    && b[..4] == [0xFA, 0xB1, 0xC0, 0xDE] && IsBe32(b[4..8], ToU32(|frames|))
    && AreEntries(b[8..|b| - |pad|], frames) && b[|b| - |pad|..] == pad
  }

  lemma EntryIsLaidOut(f: Frame)
    ensures var (e, n) := (Entry(f), 13 + |f.data|);
            |e| == 4 + n && IsBe32(e[..4], ToU32(n)) && IsFrame(e[4..], f)
  {
    Be32Bytes(ToU32(|FrameBytes(f)|));
    FrameIsLaidOut(f);
    assert Entry(f)[..4] == Be32(ToU32(|FrameBytes(f)|)) && Entry(f)[4..] == FrameBytes(f);
  }

  lemma {:induction false} EntriesAre(frames: seq<Frame>)
    ensures AreEntries(Entries(frames), frames)
    decreases frames
  {
    if frames != [] {
      var e, rest := Entry(frames[0]), Entries(frames[1..]);
      EntryIsLaidOut(frames[0]);
      EntriesAre(frames[1..]);
      assert (e + rest)[..4] == e[..4] && (e + rest)[4..|e|] == e[4..] && (e + rest)[|e|..] == rest;
    }
  }

  lemma MagicBytes()
    ensures Be32(BATCH_MAGIC) == [0xFA, 0xB1, 0xC0, 0xDE]
  {
    Be32Bytes(BATCH_MAGIC);
  }

  lemma FourParts(a: seq<byte>, b: seq<byte>, c: seq<byte>, d: seq<byte>)
    ensures var s := a + b + c + d;
            && s[..|a|] == a && s[|a|..|a| + |b|] == b
            && s[|a| + |b|..|s| - |d|] == c && s[|s| - |d|..] == d
  {
  }

  lemma BatchIsLaidOut(frames: seq<Frame>, pad: seq<byte>)
    ensures IsBatch(BatchBytes(frames, pad), frames, pad)
  {
    MagicBytes();
    Be32Bytes(ToU32(|frames|));
    EntriesAre(frames);
    FourParts(Be32(BATCH_MAGIC), Be32(ToU32(|frames|)), Entries(frames), pad);
  }

  /** A frame behind its length. */
  method EncodeEntry(f: Frame) returns (entry: seq<byte>)
    ensures entry == Entry(f)
  {
    var enc := EncodeFrame(f);
    var lb := new byte[4](_ => 0);
    PutBe32(lb, 0, ToU32(enc.Length));
    assert lb[..] == Be32(ToU32(|enc[..]|));
    entry := lb[..] + enc[..];
  }

  method EncodeHeader(count: u32) returns (b: seq<byte>)
    ensures b == Be32(BATCH_MAGIC) + Be32(count)
  {
    var header := new byte[8](_ => 0);
    PutBe32(header, 0, BATCH_MAGIC);
    PutBe32(header, 4, count);
    b := header[..];
  }

  lemma NextEntry(start: seq<byte>, frames: seq<Frame>, i: nat)
    requires i < |frames|
    ensures start + Entries(frames[..i + 1]) == start + Entries(frames[..i]) + Entry(frames[i])
  {
    EntriesAppend(frames[..i], frames[i]);
    assert frames[..i + 1] == frames[..i] + [frames[i]];
    ConcatIsAssociative(start, Entries(frames[..i]), Entry(frames[i]));
  }

  method AppendEntries(start: seq<byte>, frames: seq<Frame>) returns (plain: seq<byte>)
    ensures plain == start + Entries(frames)
  {
    plain := start;
    for i := 0 to |frames|
      invariant plain == start + Entries(frames[..i])
    {
      var entry := EncodeEntry(frames[i]);
      NextEntry(start, frames, i);
      plain := plain + entry;
    }
    assert frames[..|frames|] == frames;
  }

  method EncodeBatch(frames: seq<Frame>, pad: seq<byte>, nonce: seq<byte>, c: Cipher) returns (blob: seq<byte>)
    ensures blob == c.seal(nonce, BatchBytes(frames, pad))
  {
    var header := EncodeHeader(ToU32(|frames|));
    var plain := AppendEntries(header, frames);
    blob := c.seal(nonce, plain + pad);
  }

  /** The frames decoded before `r`, and then those of `r`. */
  function Preceded(out: seq<Frame>, r: Result<seq<Frame>, Error>): Result<seq<Frame>, Error> {
    match r
    case Err(e) => Err(e)
    case Ok(fs) => Ok(out + fs)
  }

  /** Entries `i` up to `count`, read from position `pos` on. */
  function ParseEntries(plain: seq<byte>, pos: nat, i: nat, count: nat): Result<seq<Frame>, Error>
    requires i <= count && pos <= |plain|
    decreases count - i
  {
    if i == count then Ok([])
    else if pos + 4 > |plain| then Err(TruncatedAt(i))
    else
      var fl := FromBe32(plain[pos..pos + 4]);
      if pos + 4 + fl > |plain| then Err(OverrunAt(i))
      else
        match DecodeFrame(plain[pos + 4..pos + 4 + fl])
        case Err(e) => Err(e)
        case Ok(f) => Preceded([f], ParseEntries(plain, pos + 4 + fl, i + 1, count))
  }

  lemma PrecededAppend(out: seq<Frame>, f: Frame, r: Result<seq<Frame>, Error>)
    ensures Preceded(out + [f], r) == Preceded(out, Preceded([f], r))
    ensures Preceded([], r) == r
  {
    if r.Ok? {
      assert out + [f] + r.value == out + ([f] + r.value) && [] + r.value == r.value;
    }
  }

  lemma ParseStep(plain: seq<byte>, pos: nat, n: nat, f: Frame, i: nat, count: nat)
    requires i < count && pos + 4 + n <= |plain| && FromBe32(plain[pos..pos + 4]) == n
    requires DecodeFrame(plain[pos + 4..pos + 4 + n]) == Ok(f)
    ensures ParseEntries(plain, pos, i, count) == Preceded([f], ParseEntries(plain, pos + 4 + n, i + 1, count))
  {
  }

  lemma DecodedIsNoLonger(b: seq<byte>)
    ensures var r := DecodeFrame(b);
            r.Ok? ==> FRAME_HEADER_SIZE + |r.value.data| <= |b|
  {
  }

  /** Frames that were parsed are as many as announced, fit what they were parsed from, and can be encoded. */
  lemma {:induction false} ParsedIsBounded(plain: seq<byte>, pos: nat, i: nat, count: nat)
    requires i <= count && pos <= |plain| && ParseEntries(plain, pos, i, count).Ok?
    ensures var frames := ParseEntries(plain, pos, i, count).value;
            && |frames| == count - i
            && EntriesSize(frames) <= |plain| - pos
            && forall k :: 0 <= k < |frames| ==> Encodable(frames[k])
    decreases count - i
  {
    if i < count {
      var end := pos + 4 + FromBe32(plain[pos..pos + 4]);
      DecodedIsNoLonger(plain[pos + 4..end]);
      ParsedIsBounded(plain, end, i + 1, count);
      var f, fs := DecodeFrame(plain[pos + 4..end]).value, ParseEntries(plain, end, i + 1, count).value;
      assert ([f] + fs)[1..] == fs;
    }
  }

  function ParseBatch(plain: seq<byte>): Result<seq<Frame>, Error> {
    if |plain| < 8 then Err(BatchTooShort)
    else if FromBe32(plain[..4]) != BATCH_MAGIC then Err(BadMagic)
    else ParseEntries(plain, 8, 0, FromBe32(plain[4..8]))
  }

  function OpenBatch(blob: seq<byte>, c: Cipher): Result<seq<Frame>, Error> {
    match c.unseal(blob)
    case None => Err(NotAuthentic)
    case Some(plain) => ParseBatch(plain)
  }

  method DecodeEntries(plain: seq<byte>, count: nat) returns (r: Result<seq<Frame>, Error>)
    requires |plain| >= 8
    ensures r == ParseEntries(plain, 8, 0, count)
  {
    var pos := 8;
    var out: seq<Frame> := [];
    var i := 0;
    PrecededAppend(out, Frame(0, 0, 0, []), ParseEntries(plain, 8, 0, count));
    while i < count
      invariant 0 <= i <= count && 8 <= pos <= |plain|
      invariant Preceded(out, ParseEntries(plain, pos, i, count)) == ParseEntries(plain, 8, 0, count)
    {
      if pos + 4 > |plain| {
        return Err(TruncatedAt(i));
      }
      var fl := FromBe32(plain[pos..pos + 4]);
      pos := pos + 4;
      if pos + fl > |plain| {
        return Err(OverrunAt(i));
      }
      var f := DecodeFrame(plain[pos..pos + fl]);
      if f.Err? {
        return Err(f.error);
      }
      PrecededAppend(out, f.value, ParseEntries(plain, pos + fl, i + 1, count));
      out := out + [f.value];
      pos := pos + fl;
      i := i + 1;
    }
    assert out + [] == out;
    r := Ok(out);
  }

  method DecodeBatch(blob: seq<byte>, c: Cipher) returns (r: Result<seq<Frame>, Error>)
    ensures r == OpenBatch(blob, c)
  {
    var opened' := c.unseal(blob);
    if opened' == None {
      return Err(NotAuthentic);
    }
    var plain := opened'.value;
    if |plain| < 8 {
      return Err(BatchTooShort);
    }
    if FromBe32(plain[..4]) != BATCH_MAGIC {
      return Err(BadMagic);
    }
    r := DecodeEntries(plain, FromBe32(plain[4..8]));
  }

  // ---------- round trips ----------

  predicate AllEncodable(frames: seq<Frame>) {
    |frames| <= MAX_U32 && forall i :: 0 <= i < |frames| ==> Encodable(frames[i])
  }

  lemma EntryAt(plain: seq<byte>, before: seq<byte>, f: Frame, rest: seq<byte>)
    requires plain == before + Entry(f) + rest && Encodable(f)
    ensures var pos, n := |before|, |FrameBytes(f)|;
            && pos + 4 + n <= |plain|
            && FromBe32(plain[pos..pos + 4]) == n
            && DecodeFrame(plain[pos + 4..pos + 4 + n]) == Ok(f)
  {
    var pos, n := |before|, |FrameBytes(f)|;
    Be32RoundTrip(n);
    FrameRoundTrip(f);
    assert Entry(f) == Be32(n) + FrameBytes(f);
    PartsOf(plain, before, Be32(n), FrameBytes(f), rest);
  }

  /** The frames can be decoded one after the other from position `pos` on. */
  predicate LaidOut(plain: seq<byte>, pos: nat, frames: seq<Frame>)
    decreases frames
  {
    frames == [] ||
    var end := pos + 4 + FRAME_HEADER_SIZE + |frames[0].data|;
    && end <= |plain|
    && FromBe32(plain[pos..pos + 4]) == end - pos - 4
    && DecodeFrame(plain[pos + 4..end]) == Ok(frames[0])
    && LaidOut(plain, end, frames[1..])
  }

  lemma FirstEntry(before: seq<byte>, frames: seq<Frame>, pad: seq<byte>)
    requires frames != []
    ensures before + Entries(frames) + pad == before + Entry(frames[0]) + (Entries(frames[1..]) + pad)
    ensures before + Entries(frames) + pad == before + Entry(frames[0]) + Entries(frames[1..]) + pad
  {
    var a, b := Entry(frames[0]), Entries(frames[1..]);
    ConcatIsAssociative(before, a, b);
    ConcatIsAssociative(before + a, b, pad);
  }

  lemma {:induction false} EntriesAreLaidOut(plain: seq<byte>, before: seq<byte>, frames: seq<Frame>, pad: seq<byte>)
    requires plain == before + Entries(frames) + pad
    requires forall k :: 0 <= k < |frames| ==> Encodable(frames[k])
    ensures LaidOut(plain, |before|, frames)
    decreases frames
  {
    if frames != [] {
      var f, rest := frames[0], Entries(frames[1..]) + pad;
      FirstEntry(before, frames, pad);
      EntryAt(plain, before, f, rest);
      EntriesAreLaidOut(plain, before + Entry(f), frames[1..], pad);
      assert |before + Entry(f)| == |before| + 4 + FRAME_HEADER_SIZE + |f.data|;
    }
  }

  /** Parsing entries from number `i` at `pos` gives these frames, and goes on with number `m` at `end`. */
  predicate ParsesThen(plain: seq<byte>, pos: nat, i: nat, frames: seq<Frame>, end: nat, m: nat, count: nat)
    requires i <= count && m <= count && pos <= |plain| && end <= |plain|
  {
    ParseEntries(plain, pos, i, count) == Preceded(frames, ParseEntries(plain, end, m, count))
  }

  lemma FirstIsParsed(plain: seq<byte>, pos: nat, frames: seq<Frame>, i: nat, count: nat)
    requires pos <= |plain| && LaidOut(plain, pos, frames) && frames != [] && i < count
    ensures var end := pos + 4 + FRAME_HEADER_SIZE + |frames[0].data|;
            && end <= |plain| && LaidOut(plain, end, frames[1..])
            && ParsesThen(plain, pos, i, [frames[0]], end, i + 1, count)
  {
    ParseStep(plain, pos, FRAME_HEADER_SIZE + |frames[0].data|, frames[0], i, count);
  }

  lemma FirstThenRest(frames: seq<Frame>, r: Result<seq<Frame>, Error>)
    requires frames != []
    ensures Preceded([frames[0]], Preceded(frames[1..], r)) == Preceded(frames, r)
  {
    assert frames == [frames[0]] + frames[1..];
    if r.Ok? {
      ConcatIsAssociative([frames[0]], frames[1..], r.value);
    }
  }

  lemma HeaderIsRead(count: u32, rest: seq<byte>)
    ensures var plain := Be32(BATCH_MAGIC) + Be32(count) + rest;
            ParseBatch(plain) == ParseEntries(plain, 8, 0, count)
  {
    var plain := Be32(BATCH_MAGIC) + Be32(count) + rest;
    Be32RoundTrip(BATCH_MAGIC);
    Be32RoundTrip(count);
    assert plain[..4] == Be32(BATCH_MAGIC) && plain[4..8] == Be32(count);
  }

  lemma CutEntry(plain: seq<byte>, before: seq<byte>, f: Frame, k: nat, i: nat, count: nat)
    requires Encodable(f) && k < |Entry(f)| && plain == before + Entry(f)[..k] && i < count
    ensures ParseEntries(plain, |before|, i, count) == Err(if k < 4 then TruncatedAt(i) else OverrunAt(i))
  {
    if k >= 4 {
      var pos := |before|;
      Be32RoundTrip(|FrameBytes(f)|);
      assert plain[pos..pos + 4] == Entry(f)[..4] == Be32(|FrameBytes(f)|);
    }
  }

  lemma {:induction false} CutEntryAt(frames: seq<Frame>, k: nat) returns (j: nat)
    requires k < EntriesSize(frames)
    ensures j < |frames| && EntriesSize(frames[..j]) <= k < EntriesSize(frames[..j]) + 17 + |frames[j].data|
    decreases frames
  {
    var first := 17 + |frames[0].data|;
    if k < first {
      j := 0;
    } else {
      var i := CutEntryAt(frames[1..], k - first);
      j := i + 1;
      assert frames[..j][1..] == frames[1..][..i];
    }
  }

  lemma {:induction false} EntriesConcat(a: seq<Frame>, b: seq<Frame>)
    ensures Entries(a + b) == Entries(a) + Entries(b)
    decreases a
  {
    if a == [] {
      assert a + b == b;
    } else {
      assert (a + b)[1..] == a[1..] + b;
      EntriesConcat(a[1..], b);
      ConcatIsAssociative(Entry(a[0]), Entries(a[1..]), Entries(b));
    }
  }

  lemma CutInside(a: seq<byte>, b: seq<byte>, c: seq<byte>, d: seq<byte>, k: nat)
    requires k <= |c|
    ensures (a + (b + (c + d)))[..|a| + |b| + k] == a + b + c[..k]
  {
  }

  lemma CutPrefix(frames: seq<Frame>, t: nat, j: nat)
    requires |frames| <= MAX_U32 && j < |frames|
    requires 0 <= t - 8 - EntriesSize(frames[..j]) < 17 + |frames[j].data|
    ensures t <= |BatchBytes(frames, [])|
    ensures BatchBytes(frames, [])[..t] ==
            Be32(BATCH_MAGIC) + Be32(|frames|) + Entries(frames[..j])
            + Entry(frames[j])[..t - 8 - EntriesSize(frames[..j])]
  {
    var header, whole, e, rest :=
      Be32(BATCH_MAGIC) + Be32(|frames|), Entries(frames[..j]), Entry(frames[j]), Entries(frames[j + 1..]);
    EntriesHaveSize(frames[..j]);
    EntriesConcat(frames[..j], frames[j..]);
    assert frames == frames[..j] + frames[j..] && frames[j..][1..] == frames[j + 1..];
    assert Entries(frames[j..]) == e + rest;
    CutInside(header, whole, e, rest, t - |header| - |whole|);
    assert BatchBytes(frames, []) == header + (whole + (e + rest));
  }

  lemma ParseBatchOfBytes(frames: seq<Frame>, pad: seq<byte>)
    ensures ParseBatch(BatchBytes(frames, pad)) == ParseEntries(BatchBytes(frames, pad), 8, 0, ToU32(|frames|))
  {
    var plain := BatchBytes(frames, pad);
    Be32RoundTrip(BATCH_MAGIC);
    Be32RoundTrip(ToU32(|frames|));
    assert plain[..4] == Be32(BATCH_MAGIC);
    assert plain[4..8] == Be32(ToU32(|frames|));
  }

  lemma ParsesFirstThenRest(
      plain: seq<byte>, pos: nat, i: nat, frames: seq<Frame>, mid: nat, end: nat, m: nat, count: nat)
    requires i < count && m <= count && pos <= |plain| && mid <= |plain| && end <= |plain| && frames != []
    requires ParsesThen(plain, pos, i, [frames[0]], mid, i + 1, count)
    requires ParsesThen(plain, mid, i + 1, frames[1..], end, m, count)
    ensures ParsesThen(plain, pos, i, frames, end, m, count)
  {
    FirstThenRest(frames, ParseEntries(plain, end, m, count));
  }

  /** Frames that are laid out are parsed, and then what comes behind them. */
  lemma {:induction false} LaidOutIsParsed(
      plain: seq<byte>, pos: nat, frames: seq<Frame>, i: nat, end: nat, m: nat, count: nat)
    requires pos <= |plain| && LaidOut(plain, pos, frames)
    requires end == pos + EntriesSize(frames) && i + |frames| == m <= count
    ensures end <= |plain| && ParsesThen(plain, pos, i, frames, end, m, count)
    decreases frames
  {
    if frames == [] {
      PrecededAppend([], Frame(0, 0, 0, []), ParseEntries(plain, pos, i, count));
    } else {
      var mid := pos + 4 + FRAME_HEADER_SIZE + |frames[0].data|;
      FirstIsParsed(plain, pos, frames, i, count);
      LaidOutIsParsed(plain, mid, frames[1..], i + 1, end, m, count);
      ParsesFirstThenRest(plain, pos, i, frames, mid, end, m, count);
    }
  }

  lemma EncodableBatchIsParsed(frames: seq<Frame>, pad: seq<byte>)
    requires AllEncodable(frames)
    ensures ParseBatch(BatchBytes(frames, pad)) == Ok(frames)
  {
    var header := Be32(BATCH_MAGIC) + Be32(ToU32(|frames|));
    var plain := BatchBytes(frames, pad);
    ParseBatchOfBytes(frames, pad);
    assert |header| == 8 && ToU32(|frames|) == |frames|;
    EntriesAreLaidOut(plain, header, frames, pad);
    LaidOutIsParsed(plain, 8, frames, 0, 8 + EntriesSize(frames), |frames|, |frames|);
    assert frames + [] == frames;
  }

  lemma StopsInEntry(plain: seq<byte>, header: seq<byte>, whole: seq<Frame>, f: Frame, k: nat, count: nat)
    requires |header| == 8 && |whole| < count && (forall i :: 0 <= i < |whole| ==> Encodable(whole[i]))
    requires Encodable(f) && k < |Entry(f)| && plain == header + Entries(whole) + Entry(f)[..k]
    ensures ParseEntries(plain, 8, 0, count) == Err(if k < 4 then TruncatedAt(|whole|) else OverrunAt(|whole|))
  {
    var before := header + Entries(whole);
    EntriesAreLaidOut(plain, header, whole, Entry(f)[..k]);
    EntriesHaveSize(whole);
    LaidOutIsParsed(plain, 8, whole, 0, |before|, |whole|, count);
    CutEntry(plain, before, f, k, |whole|, count);
  }

  /** A batch cut inside entry `j`, after `k` of its bytes: where and why decoding stops. */
  lemma CutBatch(frames: seq<Frame>, j: nat, k: nat)
    requires AllEncodable(frames) && j < |frames| && k < |Entry(frames[j])|
    ensures ParseBatch(Be32(BATCH_MAGIC) + Be32(|frames|) + Entries(frames[..j]) + Entry(frames[j])[..k]) ==
            Err(if k < 4 then TruncatedAt(j) else OverrunAt(j))
  {
    var header, whole, part := Be32(BATCH_MAGIC) + Be32(|frames|), Entries(frames[..j]), Entry(frames[j])[..k];
    HeaderIsRead(|frames|, whole + part);
    ConcatIsAssociative(header, whole, part);
    StopsInEntry(header + whole + part, header, frames[..j], frames[j], k, |frames|);
  }

  /** Where a batch without padding can be cut: in its header, or inside an entry. */
  lemma EveryCutBatch(frames: seq<Frame>, t: nat) returns (j: nat)
    requires AllEncodable(frames) && t < |BatchBytes(frames, [])|
    ensures j <= |frames| && (t >= 8 ==> j < |frames|)
    ensures t >= 8 ==> 0 <= t - 8 - EntriesSize(frames[..j]) < 17 + |frames[j].data|
    ensures ParseBatch(BatchBytes(frames, [])[..t]) ==
            Err(if t < 8 then BatchTooShort
                else if t < 12 + EntriesSize(frames[..j]) then TruncatedAt(j) else OverrunAt(j))
  {
    j := 0;
    EntriesHaveSize(frames);
    if t >= 8 {
      j := CutEntryAt(frames, t - 8);
      CutPrefix(frames, t, j);
      CutBatch(frames, j, t - 8 - EntriesSize(frames[..j]));
    }
  }

  /** Whatever the padding, a batch parses to its frames exactly when their number and lengths fit 32 bits. */
  lemma ParseRoundTripIff(frames: seq<Frame>, pad: seq<byte>)
    ensures ParseBatch(BatchBytes(frames, pad)) == Ok(frames) <==> AllEncodable(frames)
  {
    if AllEncodable(frames) {
      EncodableBatchIsParsed(frames, pad);
    } else if ParseBatch(BatchBytes(frames, pad)) == Ok(frames) {
      ParseBatchOfBytes(frames, pad);
      ParsedIsBounded(BatchBytes(frames, pad), 8, 0, ToU32(|frames|));
    }
  }

  lemma {:induction false} EntriesGiveNoHeaderError(plain: seq<byte>, pos: nat, i: nat, count: nat)
    requires i <= count && pos <= |plain|
    ensures ParseEntries(plain, pos, i, count) !in {Err(BatchTooShort), Err(BadMagic), Err(NotAuthentic)}
    decreases count - i
  {
    if i < count && pos + 4 <= |plain| {
      var end := pos + 4 + FromBe32(plain[pos..pos + 4]);
      if end <= |plain| {
        EntriesGiveNoHeaderError(plain, end, i + 1, count);
      }
    }
  }

  /** Fewer than eight bytes are too short, and other bytes than FAB1C0DE at the start are bad magic. */
  lemma HeaderIsChecked(plain: seq<byte>)
    ensures ParseBatch(plain) == Err(BatchTooShort) <==> |plain| < 8
    ensures ParseBatch(plain) == Err(BadMagic) <==> |plain| >= 8 && plain[..4] != [0xFA, 0xB1, 0xC0, 0xDE]
  {
    if |plain| >= 8 {
      FromBe32Bytes(plain[..4]);
      MagicBytes();
      Be32RoundTrip(BATCH_MAGIC);
      Be32Bytes(FromBe32(plain[..4]));
      EntriesGiveNoHeaderError(plain, 8, 0, FromBe32(plain[4..8]));
    }
  }

  /** Whatever the padding, a batch decodes to its frames exactly when their number and lengths fit 32 bits. */
  lemma BatchRoundTripIff(frames: seq<Frame>, pad: seq<byte>, nonce: seq<byte>, c: Cipher)
    requires Sound(c)
    ensures OpenBatch(c.seal(nonce, BatchBytes(frames, pad)), c) == Ok(frames) <==> AllEncodable(frames)
  {
    ParseRoundTripIff(frames, pad);
  }

  /** Whatever DecodeBatch accepts can be encoded again, and comes back the same. */
  lemma AcceptedBatchRoundTrips(blob: seq<byte>, pad: seq<byte>, nonce: seq<byte>, c: Cipher)
    requires Sound(c) && OpenBatch(blob, c).Ok?
    ensures var r := OpenBatch(blob, c);
            OpenBatch(c.seal(nonce, BatchBytes(r.value, pad)), c) == r
  {
    var frames, plain := OpenBatch(blob, c).value, c.unseal(blob).value;
    ParsedIsBounded(plain, 8, 0, FromBe32(plain[4..8]));
    BatchRoundTripIff(frames, pad, nonce, c);
  }

  // ---------- on the wire ----------

  function Wire(blob: seq<byte>): seq<byte> {
    Be32(ToU32(|blob|)) + blob
  }

  lemma WireIsLaidOut(blob: seq<byte>)
    ensures var b := Wire(blob);
            |b| == 4 + |blob| && IsBe32(b[..4], ToU32(|blob|)) && b[4..] == blob
  {
    Be32Bytes(ToU32(|blob|));
    assert Wire(blob)[..4] == Be32(ToU32(|blob|));
  }

  method WriteBatch(w: ByteWriter, frames: seq<Frame>, pad: seq<byte>, nonce: seq<byte>, c: Cipher)
    modifies w
    ensures w.out == old(w.out) + Wire(c.seal(nonce, BatchBytes(frames, pad)))
  {
    var blob := EncodeBatch(frames, pad, nonce, c);
    var hdr := new byte[4](_ => 0);
    PutBe32(hdr, 0, ToU32(|blob|));
    assert hdr[..] == Be32(ToU32(|blob|));
    w.Write(hdr[..]);
    w.Write(blob);
  }

  function ReadWire(s: seq<byte>, c: Cipher): (Result<seq<Frame>, Error>, seq<byte>) {
    var (hdr, rest) := ReadExactly(s, 4);
    match hdr
    case Err(e) => (Err(ReadFailed(e)), rest)
    case Ok(h) =>
      var n := FromBe32(h);
      if n == 0 || n > MAX_BATCH_WIRE then (Err(InvalidLength(n)), rest)
      else
        var (blob, rest') := ReadExactly(rest, n);
        match blob
        case Err(e) => (Err(ReadFailed(e)), rest')
        case Ok(b) => (OpenBatch(b, c), rest')
  }

  method ReadBatch(r: ByteReader, c: Cipher) returns (result: Result<seq<Frame>, Error>)
    modifies r
    ensures (result, r.rest) == ReadWire(old(r.rest), c)
  {
    var hdr := r.ReadFull(4);
    if hdr.Err? {
      return Err(ReadFailed(hdr.error));
    }
    var n := FromBe32(hdr.value);
    if n == 0 || n > MAX_BATCH_WIRE {
      return Err(InvalidLength(n));
    }
    var blob := r.ReadFull(n);
    if blob.Err? {
      return Err(ReadFailed(blob.error));
    }
    result := DecodeBatch(blob.value, c);
  }

  function BlobSize(frames: seq<Frame>, padding: nat): nat {
    OVERHEAD + 8 + EntriesSize(frames) + padding
  }

  lemma BlobHasSize(frames: seq<Frame>, pad: seq<byte>, nonce: seq<byte>, c: Cipher)
    requires Sound(c)
    ensures |c.seal(nonce, BatchBytes(frames, pad))| == BlobSize(frames, |pad|)
  {
    EntriesHaveSize(frames);
  }

  /** What is read from a wire cannot be larger than the limit. */
  lemma ReadIsBounded(s: seq<byte>, c: Cipher)
    requires Sound(c) && ReadWire(s, c).0.Ok?
    ensures OVERHEAD + 8 + EntriesSize(ReadWire(s, c).0.value) <= MAX_BATCH_WIRE
  {
    var n := FromBe32(s[..4]);
    var plain := c.unseal(s[4..][..n]).value;
    ParsedIsBounded(plain, 8, 0, FromBe32(plain[4..8]));
  }

  lemma WireOf(blob: seq<byte>, tail: seq<byte>, c: Cipher)
    ensures var (s, n) := (Wire(blob) + tail, ToU32(|blob|));
            && |s| >= 4 && FromBe32(s[..4]) == n && s[4..] == blob + tail
            && (0 < |blob| <= MAX_BATCH_WIRE ==> ReadWire(s, c) == (OpenBatch(blob, c), tail))
            && (|blob| <= MAX_U32 && |blob| > MAX_BATCH_WIRE ==> ReadWire(s, c).0 == Err(InvalidLength(n)))
  {
    var s := Wire(blob) + tail;
    Be32RoundTrip(ToU32(|blob|));
    assert s[..4] == Be32(ToU32(|blob|));
    assert s[4..] == blob + tail;
    assert (blob + tail)[..|blob|] == blob && (blob + tail)[|blob|..] == tail;
  }

  /** Lengths of 1 to 4 MiB are accepted, and others refused as soon as they are read. */
  lemma LengthsAccepted(s: seq<byte>, c: Cipher)
    requires |s| >= 4
    ensures var (n, r) := (FromBe32(s[..4]), ReadWire(s, c));
            && IsBe32(s[..4], n)
            && (n == 0 || n > 4_194_304 ==> r == (Err(InvalidLength(n)), s[4..]))
            && (1 <= n <= 4_194_304 && n <= |s| - 4 ==> r == (OpenBatch(s[4..4 + n], c), s[4 + n..]))
            && (1 <= n <= 4_194_304 && n > |s| - 4 ==>
                  r == (Err(ReadFailed(if |s| == 4 then Eof else UnexpectedEof)), []))
  {
    FromBe32Bytes(s[..4]);
    if 1 <= FromBe32(s[..4]) <= |s| - 4 {
      var n := FromBe32(s[..4]);
      assert s[4..][..n] == s[4..4 + n] && s[4..][n..] == s[4 + n..];
    }
  }

  lemma SmallIsEncodable(frames: seq<Frame>)
    requires EntriesSize(frames) <= MAX_BATCH_WIRE
    ensures AllEncodable(frames)
  {
    EntriesHaveSize(frames);
    assert forall i :: 0 <= i < |frames| ==> frames[i] in frames;
  }

  /** A batch with its padding is read back, and the stream goes on behind it, exactly when it is within the limit. */
  lemma WireRoundTripIff(frames: seq<Frame>, pad: seq<byte>, nonce: seq<byte>, c: Cipher, tail: seq<byte>)
    requires Sound(c) && |pad| <= 512
    ensures ReadWire(Wire(c.seal(nonce, BatchBytes(frames, pad))) + tail, c) == (Ok(frames), tail) <==>
            36 + EntriesSize(frames) + |pad| <= 4_194_304
  {
    var blob := c.seal(nonce, BatchBytes(frames, pad));
    var s := Wire(blob) + tail;
    BlobHasSize(frames, pad, nonce, c);
    WireOf(blob, tail, c);
    if BlobSize(frames, |pad|) <= MAX_BATCH_WIRE {
      SmallIsEncodable(frames);
      BatchRoundTripIff(frames, pad, nonce, c);
    } else if ReadWire(s, c).0.Ok? {
      ReadIsBounded(s, c);
    }
  }

  lemma {:induction false} SizeOfFullFrames(frames: seq<Frame>, d: nat)
    requires forall i :: 0 <= i < |frames| ==> |frames[i].data| <= d
    ensures EntriesSize(frames) <= |frames| * (4 + FRAME_HEADER_SIZE + d)
    ensures (forall i :: 0 <= i < |frames| ==> |frames[i].data| == d) ==>
              EntriesSize(frames) == |frames| * (4 + FRAME_HEADER_SIZE + d)
    decreases frames
  {
    if frames != [] {
      SizeOfFullFrames(frames[1..], d);
      assert |frames| * (17 + d) == (|frames| - 1) * (17 + d) + (17 + d);
    }
  }

  /** Up to 127 frames always fit a batch, whatever the padding; 128 full ones never do. */
  lemma HowManyFramesFit(frames: seq<Frame>, padding: nat)
    requires padding <= 512
    requires forall i :: 0 <= i < |frames| ==> |frames[i].data| <= MAX_FRAME_DATA
    ensures |frames| <= 127 ==> BlobSize(frames, padding) <= MAX_BATCH_WIRE
    ensures |frames| >= 128 && (forall i :: 0 <= i < |frames| ==> |frames[i].data| == MAX_FRAME_DATA) ==>
              BlobSize(frames, padding) > MAX_BATCH_WIRE
  {
    SizeOfFullFrames(frames, MAX_FRAME_DATA);
    var full := 4 + FRAME_HEADER_SIZE + MAX_FRAME_DATA;
    if |frames| <= 127 {
      assert |frames| * full <= 127 * full;
    } else {
      assert |frames| * full >= 128 * full;
    }
  }
}
