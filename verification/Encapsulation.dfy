/** Reading chunks, writing chunks and padding, and size budgets. */
module Encapsulation {
  import opened Bytes
  import opened ChunkFormat
  import opened Sequences
  import opened Streams
  import opened Wrappers

  // ---------- reading ----------

  /** End stands for a stream that ends before a length prefix, CutShort for one that ends later. */
  datatype ReadResult = Data(p: seq<byte>) | End | CutShort | TooLong

  datatype PrefixResult = NoPrefix | CutPrefix | LongPrefix | Length(isData: bool, n: nat, width: nat)

  // The bits of a prefix byte: 0x80, 0x40 in the first byte, and the value-carrying rest.

  predicate HighBit(b: byte) { b >= 0x80 }

  predicate SecondBit(b: byte) { b % 0x80 >= 0x40 }

  function Low6(b: byte): nat { b % 0x40 }

  function Low7(b: byte): nat { b % 0x80 }

  /** The length prefix that `s` starts with. */
  function ReadPrefix(s: seq<byte>): PrefixResult {
    if s == [] then NoPrefix
    else if !SecondBit(s[0]) then Length(HighBit(s[0]), Low6(s[0]), 1)
    else if |s| == 1 then CutPrefix
    else if !HighBit(s[1]) then Length(HighBit(s[0]), Low6(s[0]) * 0x80 + Low7(s[1]), 2)
    else if |s| == 2 then CutPrefix
    else if !HighBit(s[2]) then
      Length(HighBit(s[0]), (Low6(s[0]) * 0x80 + Low7(s[1])) * 0x80 + Low7(s[2]), 3)
    else LongPrefix
  }

  /** The next data chunk, and what is left of the stream. */
  function Read(s: seq<byte>): (r: (ReadResult, seq<byte>))
    ensures r.0.Data? ==> |r.1| < |s|
    decreases |s|
  {
    match ReadPrefix(s)
    case NoPrefix => (End, [])
    case CutPrefix => (CutShort, [])
    case LongPrefix => (TooLong, s[3..])
    case Length(isData, n, width) =>
      if |s| < width + n then (CutShort, [])
      else if isData then (Data(s[width..width + n]), s[width + n..])
      else Read(s[width + n..])
  }

  /** What is left of `s` once its length prefix, or as much of it as there is, has been read. */
  function AfterPrefix(s: seq<byte>): seq<byte> {
    match ReadPrefix(s)
    case Length(_, _, width) => s[width..]
    case LongPrefix => s[3..]
    case _ => []
  }

  method ReadLength(r: ByteReader) returns (length: PrefixResult)
    modifies r
    ensures length == ReadPrefix(old(r.rest)) && r.rest == AfterPrefix(old(r.rest))
  {
    ghost var s := r.rest;
    var b := r.ReadFull(1);
    if b.Err? {
      return NoPrefix;
    }
    var isData := HighBit(b.value[0]);
    var moreLength := SecondBit(b.value[0]);
    var n := Low6(b.value[0]);
    var i := 0;
    while moreLength
      invariant 0 <= i <= 2 && i < |s| && r.rest == s[i + 1..] && isData == HighBit(s[0])
      invariant i == 0 ==> n == Low6(s[0]) && moreLength == SecondBit(s[0])
      invariant i >= 1 ==> SecondBit(s[0])
      invariant i == 1 ==> n == Low6(s[0]) * 0x80 + Low7(s[1]) && moreLength == HighBit(s[1])
      invariant i == 2 ==> n == (Low6(s[0]) * 0x80 + Low7(s[1])) * 0x80 + Low7(s[2])
      invariant i == 2 ==> HighBit(s[1]) && moreLength == HighBit(s[2])
      decreases 3 - i
    {
      if i >= 2 {
        return LongPrefix;
      }
      b := r.ReadFull(1);
      if b.Err? {
        return CutPrefix;
      }
      moreLength := HighBit(b.value[0]);
      n := n * 0x80 + Low7(b.value[0]);
      i := i + 1;
    }
    length := Length(isData, n, i + 1);
  }

  method ReadData(r: ByteReader) returns (result: ReadResult)
    modifies r
    ensures (result, r.rest) == Read(old(r.rest))
  {
    while true
      invariant Read(r.rest) == Read(old(r.rest))
      decreases |r.rest|
    {
      ghost var s := r.rest;
      var length := ReadLength(r);
      match length {
        case NoPrefix => return End;
        case CutPrefix => return CutShort;
        case LongPrefix => return TooLong;
        case Length(isData, n, width) =>
          assert |s| >= width + n ==> s[width..][..n] == s[width..width + n] && s[width..][n..] == s[width + n..];
          var p := r.ReadFull(n);
          if p.Err? {
            return CutShort;
          }
          if isData {
            return Data(p.value);
          }
      }
    }
  }

  /** Reads data chunks until there is an error, which is returned as well. */
  function ReadAll(s: seq<byte>): (seq<seq<byte>>, ReadResult)
    decreases |s|
  {
    var (r, rest) := Read(s);
    if r.Data? then
      var (more, end) := ReadAll(rest);
      ([r.p] + more, end)
    else ([], r)
  }

  lemma FirstByte(isData: bool, more: bool, x: nat)
    requires x < 0x40
    ensures var b := (if isData then 0x80 else 0) + (if more then 0x40 else 0) + x;
            0 <= b < 0x100 && HighBit(b) == isData && SecondBit(b) == more && Low6(b) == x
  {
  }

  lemma LaterByte(more: bool, y: nat)
    requires y < 0x80
    ensures var b := (if more then 0x80 else 0) + y;
            0 <= b < 0x100 && HighBit(b) == more && Low7(b) == y
  {
  }

  lemma ReadsTwoDigits(s: seq<byte>, isData: bool, x: nat, y: nat)
    requires x < 0x40 && y < 0x80
    requires [(if isData then 0x80 else 0) + 0x40 + x, y] <= s
    ensures ReadPrefix(s) == Length(isData, x * 0x80 + y, 2)
  {
    FirstByte(isData, true, x);
    LaterByte(false, y);
  }

  lemma ReadsThreeDigits(s: seq<byte>, isData: bool, x: nat, y: nat, z: nat)
    requires x < 0x40 && y < 0x80 && z < 0x80
    requires [(if isData then 0x80 else 0) + 0x40 + x, 0x80 + y, z] <= s
    ensures ReadPrefix(s) == Length(isData, (x * 0x80 + y) * 0x80 + z, 3)
  {
    FirstByte(isData, true, x);
    LaterByte(true, y);
    LaterByte(false, z);
  }

  lemma ThreeDigits(n: nat)
    ensures n == (n / 0x4000 * 0x80 + n / 0x80 % 0x80) * 0x80 + n % 0x80
    ensures n < 0x10_0000 ==> n / 0x4000 < 0x40
  {
    assert n / 0x4000 == n / 0x80 / 0x80;
  }

  lemma PrefixIsRead(c: Chunk, tail: seq<byte>)
    requires WellFormed(c)
    ensures ReadPrefix(Encode(c) + tail) == Length(c.isData, |c.body|, c.width)
  {
    var s, p, n := Encode(c) + tail, Prefix(c.isData, |c.body|, c.width), |c.body|;
    assert p <= s;
    if c.width == 1 {
      FirstByte(c.isData, false, n);
      assert s[0] == p[0];
    } else if c.width == 2 {
      assert n / 0x80 < 0x40;
      ReadsTwoDigits(s, c.isData, n / 0x80, n % 0x80);
    } else {
      ThreeDigits(n);
      ReadsThreeDigits(s, c.isData, n / 0x4000, n / 0x80 % 0x80, n % 0x80);
    }
  }

  lemma ReadsData(c: Chunk, tail: seq<byte>)
    requires WellFormed(c) && c.isData
    ensures Read(Encode(c) + tail) == (Data(c.body), tail)
  {
    PrefixIsRead(c, tail);
    var s := Encode(c) + tail;
    assert s[c.width..c.width + |c.body|] == c.body && s[c.width + |c.body|..] == tail;
  }

  lemma SkipsPadding(c: Chunk, tail: seq<byte>)
    requires WellFormed(c) && !c.isData
    ensures Read(Encode(c) + tail) == Read(tail)
  {
    PrefixIsRead(c, tail);
    assert (Encode(c) + tail)[c.width + |c.body|..] == tail;
  }

  lemma {:induction false} SkipsAllPadding(pads: seq<Chunk>, tail: seq<byte>)
    requires OnlyPadding(pads)
    ensures Read(EncodeAll(pads) + tail) == Read(tail)
  {
    if pads == [] {
      assert EncodeAll(pads) + tail == tail;
    } else {
      assert EncodeAll(pads) + tail == Encode(pads[0]) + (EncodeAll(pads[1..]) + tail);
      SkipsPadding(pads[0], EncodeAll(pads[1..]) + tail);
      SkipsAllPadding(pads[1..], tail);
    }
  }

  /** A chunk cut after some but not all of its bytes. */
  lemma CutChunk(c: Chunk, t: nat)
    requires WellFormed(c) && 0 < t < |Encode(c)|
    ensures Read(Encode(c)[..t]) == (CutShort, [])
  {
    var s := Encode(c)[..t];
    PrefixIsRead(c, []);
    assert Encode(c) + [] == Encode(c);
    assert forall i :: 0 <= i < t ==> s[i] == Encode(c)[i];
    if t < c.width {
      assert ReadPrefix(s) == CutPrefix;
    } else {
      assert ReadPrefix(s) == ReadPrefix(Encode(c));
    }
  }

  /** Whole chunks followed by part of another: their data is read, then the end shows where the cut was. */
  lemma {:induction false} ReadsUpToCut(cs: seq<Chunk>, c: Chunk, t: nat)
    requires AllWellFormed(cs) && WellFormed(c) && t < |Encode(c)|
    ensures ReadAll(EncodeAll(cs) + Encode(c)[..t]) == (DataOf(cs), if t == 0 then End else CutShort)
    decreases |cs|
  {
    var tail := Encode(c)[..t];
    if cs == [] {
      assert EncodeAll(cs) + tail == tail;
      if t > 0 {
        CutChunk(c, t);
      }
    } else {
      var rest := EncodeAll(cs[1..]) + tail;
      assert EncodeAll(cs) + tail == Encode(cs[0]) + rest;
      ReadsUpToCut(cs[1..], c, t);
      if cs[0].isData {
        ReadsData(cs[0], rest);
      } else {
        SkipsPadding(cs[0], rest);
        assert [] + DataOf(cs[1..]) == DataOf(cs[1..]);
      }
    }
  }

  lemma ReadsWholeStream(cs: seq<Chunk>)
    requires AllWellFormed(cs)
    ensures ReadAll(EncodeAll(cs)) == (DataOf(cs), End)
  {
    var c := Chunk(true, 1, []);
    ReadsUpToCut(cs, c, 0);
    assert EncodeAll(cs) + Encode(c)[..0] == EncodeAll(cs);
  }

  lemma {:induction false} CutAt(cs: seq<Chunk>, k: nat) returns (j: nat)
    requires AllWellFormed(cs) && k <= |EncodeAll(cs)|
    ensures j <= |cs| && AllWellFormed(cs[..j]) && |EncodeAll(cs[..j])| <= k
    ensures j < |cs| ==> k < |EncodeAll(cs[..j])| + |Encode(cs[j])|
    ensures j == |cs| ==> k == |EncodeAll(cs)|
    decreases |cs|
  {
    if cs == [] || k < |Encode(cs[0])| {
      j := 0;
    } else {
      var i := CutAt(cs[1..], k - |Encode(cs[0])|);
      j := i + 1;
      assert cs[..j][1..] == cs[1..][..i];
    }
  }

  /** Every cut of a stream falls between two chunks, or inside one: `j` counts the whole chunks before it. */
  lemma {:induction false} EveryCut(cs: seq<Chunk>, k: nat) returns (j: nat)
    requires AllWellFormed(cs) && k <= |EncodeAll(cs)|
    ensures j <= |cs| && AllWellFormed(cs[..j])
    ensures |EncodeAll(cs[..j])| <= k && (j < |cs| ==> k < |EncodeAll(cs[..j])| + |Encode(cs[j])|)
    ensures ReadAll(EncodeAll(cs)[..k]) ==
            (DataOf(cs[..j]), if |EncodeAll(cs[..j])| == k then End else CutShort)
    decreases |cs|
  {
    j := CutAt(cs, k);
    EncodeAllConcat(cs[..j], cs[j..]);
    assert cs == cs[..j] + cs[j..];
    var t := k - |EncodeAll(cs[..j])|;
    if j == |cs| {
      assert cs[..j] == cs;
      assert EncodeAll(cs)[..k] == EncodeAll(cs);
      ReadsWholeStream(cs);
    } else {
      assert EncodeAll(cs[j..]) == Encode(cs[j]) + EncodeAll(cs[j..][1..]);
      assert EncodeAll(cs)[..k] == EncodeAll(cs[..j]) + Encode(cs[j])[..t];
      ReadsUpToCut(cs[..j], cs[j], t);
    }
  }

  // ---------- every stream, whoever wrote it ----------

  /** A length prefix cut short, or one that runs on after its third byte. */
  predicate IsLongPrefix(s: seq<byte>) {
    |s| >= 3 && SecondBit(s[0]) && HighBit(s[1]) && HighBit(s[2])
  }

  /** `s` is padding, and then what the result says: a data chunk, nothing, a cut chunk, or a bad prefix. */
  ghost predicate Explains(s: seq<byte>, r: ReadResult, rest: seq<byte>, pads: seq<Chunk>, c: Chunk, t: nat) {
    && OnlyPadding(pads) && WellFormed(c) && t <= |Encode(c)|
    && match r
       case Data(p) => c.isData && c.body == p && s == EncodeAll(pads) + (Encode(c) + rest)
       case End => s == EncodeAll(pads)
       case CutShort => 0 < t < |Encode(c)| && s == EncodeAll(pads) + Encode(c)[..t]
       case TooLong => EncodeAll(pads) <= s && IsLongPrefix(s[|EncodeAll(pads)|..])
  }

  lemma DropBoth(a: seq<byte>, b: seq<byte>, tail: seq<byte>)
    requires b <= tail
    ensures a + b <= a + tail && (a + tail)[|a + b|..] == tail[|b|..]
  {
  }

  lemma ExplainsAfterPadding(
      first: Chunk, tail: seq<byte>, r: ReadResult, rest: seq<byte>, pads: seq<Chunk>, c: Chunk, t: nat)
    requires WellFormed(first) && !first.isData && Explains(tail, r, rest, pads, c, t)
    ensures Explains(Encode(first) + tail, r, rest, [first] + pads, c, t)
  {
    var e, p := Encode(first), EncodeAll(pads);
    assert ([first] + pads)[1..] == pads;
    assert EncodeAll([first] + pads) == e + p;
    match r
    case Data(_) => ConcatIsAssociative(e, p, Encode(c) + rest);
    case End =>
    case CutShort => ConcatIsAssociative(e, p, Encode(c)[..t]);
    case TooLong => DropBoth(e, p, tail);
  }

  /** `s` starts with a whole chunk, which is returned. */
  predicate StartsWithChunk(s: seq<byte>) {
    ReadPrefix(s).Length? && ReadPrefix(s).width + ReadPrefix(s).n <= |s|
  }

  lemma ByteParts(b: byte)
    ensures b == (if HighBit(b) then 0x80 else 0) + Low7(b)
    ensures b == (if HighBit(b) then 0x80 else 0) + (if SecondBit(b) then 0x40 else 0) + Low6(b)
  {
  }

  lemma TwoDigitsOf(a: nat, b: nat)
    requires b < 0x80
    ensures (a * 0x80 + b) / 0x80 == a && (a * 0x80 + b) % 0x80 == b
  {
  }

  lemma DigitsOf(a: nat, b: nat, c: nat)
    requires b < 0x80 && c < 0x80
    ensures var n := (a * 0x80 + b) * 0x80 + c;
            n / 0x4000 == a && n / 0x80 % 0x80 == b && n % 0x80 == c
  {
    var n := (a * 0x80 + b) * 0x80 + c;
    assert n / 0x80 == a * 0x80 + b;
  }

  lemma PrefixOfRead(s: seq<byte>)
    requires ReadPrefix(s).Length?
    ensures var Length(isData, n, width) := ReadPrefix(s);
            1 <= width <= MAX_WIDTH && width <= |s| && n < Limit(width) && s[..width] == Prefix(isData, n, width)
  {
    var width := ReadPrefix(s).width;
    ByteParts(s[0]);
    if width == 1 {
      assert s[..1] == [s[0]];
    } else if width == 2 {
      ByteParts(s[1]);
      TwoDigitsOf(Low6(s[0]), Low7(s[1]));
      assert s[..2] == [s[0], s[1]];
    } else {
      ByteParts(s[1]);
      ByteParts(s[2]);
      DigitsOf(Low6(s[0]), Low7(s[1]), Low7(s[2]));
      assert s[..3] == [s[0], s[1], s[2]];
    }
  }

  lemma FirstChunk(s: seq<byte>) returns (c: Chunk, tail: seq<byte>)
    requires StartsWithChunk(s)
    ensures WellFormed(c) && s == Encode(c) + tail && c.isData == ReadPrefix(s).isData
  {
    PrefixOfRead(s);
    var Length(isData, n, width) := ReadPrefix(s);
    c, tail := Chunk(isData, width, s[width..width + n]), s[width + n..];
    assert Encode(c) == s[..width] + s[width..width + n];
    assert s == s[..width] + s[width..width + n] + s[width + n..];
  }

  lemma CompleteBody(s: seq<byte>) returns (c: Chunk, t: nat)
    requires ReadPrefix(s).Length? && |s| < ReadPrefix(s).width + ReadPrefix(s).n
    ensures WellFormed(c) && 0 < t < |Encode(c)| && s == Encode(c)[..t]
  {
    PrefixOfRead(s);
    var Length(isData, n, width) := ReadPrefix(s);
    c, t := Chunk(isData, width, s[width..] + seq(width + n - |s|, _ => 0)), |s|;
  }

  /** A cut prefix can be completed. */
  lemma CompletePrefix(s: seq<byte>) returns (c: Chunk, t: nat)
    requires ReadPrefix(s) == CutPrefix
    ensures WellFormed(c) && 0 < t < |Encode(c)| && s == Encode(c)[..t]
  {
    var d, x := HighBit(s[0]), Low6(s[0]);
    t := |s|;
    ByteParts(s[0]);
    if |s| == 1 {
      TwoDigitsOf(x, 0);
      c := Chunk(d, 2, seq(x * 0x80, _ => 0));
      assert Encode(c)[..1] == [Prefix(d, x * 0x80, 2)[0]];
    } else {
      var y := Low7(s[1]);
      ByteParts(s[1]);
      DigitsOf(x, y, 0);
      c := Chunk(d, 3, seq((x * 0x80 + y) * 0x80, _ => 0));
      assert Encode(c)[..2] == Prefix(d, (x * 0x80 + y) * 0x80, 3)[..2];
    }
  }

  lemma ReadWithoutChunk(s: seq<byte>) returns (c: Chunk, t: nat)
    requires !StartsWithChunk(s)
    ensures Explains(s, Read(s).0, Read(s).1, [], c, t)
  {
    c, t := Chunk(true, 1, []), 0;
    assert EncodeAll([]) + s == s && s[0..] == s;
    if ReadPrefix(s) == CutPrefix {
      c, t := CompletePrefix(s);
    } else if ReadPrefix(s).Length? {
      c, t := CompleteBody(s);
    }
  }

  /** The converse: the result of a read says exactly how the stream starts. */
  lemma {:induction false} ReadExplains(s: seq<byte>) returns (pads: seq<Chunk>, c: Chunk, t: nat)
    ensures Explains(s, Read(s).0, Read(s).1, pads, c, t)
    decreases |s|
  {
    if StartsWithChunk(s) {
      var first, tail := FirstChunk(s);
      if first.isData {
        ReadsData(first, tail);
        pads, c, t := [], first, 0;
        assert EncodeAll(pads) + s == s;
      } else {
        SkipsPadding(first, tail);
        pads, c, t := ReadExplains(tail);
        ExplainsAfterPadding(first, tail, Read(tail).0, Read(tail).1, pads, c, t);
        pads := [first] + pads;
      }
    } else {
      pads := [];
      c, t := ReadWithoutChunk(s);
    }
  }

  // ---------- writing ----------

  /** Whether the bits of `x` above the lowest six are zero, as for a shifted length. */
  predicate FitsSixBits(x: int) { x % 0x40 == x }

  /** None where the source reports that the length is too long. */
  function DataPrefixForLength(n: int): Option<seq<byte>> {
    if FitsSixBits(n) then Some([0x80 + n % 0x40])
    else if FitsSixBits(n / 0x80) then Some([0xC0 + n / 0x80 % 0x40, n % 0x80])
    else if FitsSixBits(n / 0x4000) then Some([0xC0 + n / 0x4000 % 0x40, 0x80 + n / 0x80 % 0x80, n % 0x80])
    else None
  }

  /** The fewest bytes that hold a length. */
  function MinWidth(n: nat): (width: nat)
    requires n < Limit(MAX_WIDTH)
    ensures 1 <= width <= MAX_WIDTH && n < Limit(width) && (width > 1 ==> n >= Limit(width - 1))
  {
    if n < Limit(1) then 1 else if n < Limit(2) then 2 else 3
  }

  /** The prefix is the shortest there is, and there is none exactly for lengths that no prefix can hold. */
  lemma PrefixIsShortest(n: int)
    ensures DataPrefixForLength(n) ==
            if 0 <= n < Limit(MAX_WIDTH) then Some(Prefix(true, n, MinWidth(n))) else None
  {
  }

  /** The bits of the prefix: 0x80 for data, then 0x40 or 0x80 for more to come, and the length in what is left. */
  lemma PrefixBits(n: nat)
    ensures DataPrefixForLength(n) == None <==> n >= 1_048_576
    ensures n < 1_048_576 ==>
      var p := DataPrefixForLength(n).value;
      && |p| == (if n < 64 then 1 else if n < 8192 then 2 else 3)
      && p[0] >= 0x80
      && (|p| == 1 ==> p[0] as int == 0x80 + n)
      && (|p| == 2 ==> p[0] >= 0xC0 && p[1] < 0x80 && n == (p[0] as int - 0xC0) * 128 + p[1])
      && (|p| == 3 ==> p[0] >= 0xC0 && p[1] >= 0x80 && p[2] < 0x80 &&
                       n == (p[0] as int - 0xC0) * 16384 + (p[1] as int - 0x80) * 128 + p[2])
  {
    if 8192 <= n < 1_048_576 {
      ThreeDigits(n);
    }
  }

  /** The same bits as the reader takes them, for prefixes of data and of padding, shortest or not. */
  lemma PrefixByBits(s: seq<byte>)
    requires ReadPrefix(s).Length?
    ensures var Length(isData, n, width) := ReadPrefix(s);
            var x := s[0] as int - if isData then 0x80 else 0;
            && (isData <==> s[0] >= 0x80) && 1 <= width <= 3 && width <= |s|
            && (width == 1 ==> n == x < 0x40)
            && (width == 2 ==> x >= 0x40 && s[1] < 0x80 && n == (x - 0x40) * 128 + s[1])
            && (width == 3 ==> x >= 0x40 && s[1] >= 0x80 && s[2] < 0x80 &&
                               n == (x - 0x40) * 16384 + (s[1] as int - 0x80) * 128 + s[2])
  {
    ByteParts(s[0]);
  }

  function DataChunks(data: seq<byte>): (cs: seq<Chunk>)
    ensures AllWellFormed(cs)
  {
    if |data| < Limit(MAX_WIDTH) then [Chunk(true, MinWidth(|data|), data)] else []
  }

  datatype WriteError = ErrTooLong

  method WriteData(w: ByteWriter, data: seq<byte>) returns (r: Result<nat, WriteError>)
    modifies w
    ensures w.out == old(w.out) + EncodeAll(DataChunks(data))
    ensures r == if |data| < Limit(MAX_WIDTH) then Ok(|w.out| - old(|w.out|)) else Err(ErrTooLong)
  {
    PrefixIsShortest(|data|);
    var prefix := DataPrefixForLength(|data|);
    if prefix == None {
      assert w.out + [] == w.out;
      return Err(ErrTooLong);
    }
    w.Write(prefix.value);
    w.Write(data);
    ghost var c := Chunk(true, MinWidth(|data|), data);
    assert EncodeAll([c]) == Encode(c) + [] == Encode(c);
    r := Ok(|prefix.value| + |data|);
  }

  const PADDING_BUFFER_SIZE := 1024

  function Zeros(n: nat): (z: seq<byte>)
    ensures |z| == n
  {
    seq(n, _ => 0)
  }

  /** One padding chunk that takes `p` bytes in all. */
  function PaddingChunk(p: nat): (c: Chunk)
    requires 1 <= p <= PADDING_BUFFER_SIZE
    ensures WellFormed(c) && !c.isData && |Encode(c)| == p
  {
    if p <= 0x40 then Chunk(false, 1, Zeros(p - 1)) else Chunk(false, 2, Zeros(p - 2))
  }

  function PaddingChunks(n: nat): (cs: seq<Chunk>)
    ensures OnlyPadding(cs) && |EncodeAll(cs)| == n
  {
    if n == 0 then []
    else
      var p := if n < PADDING_BUFFER_SIZE then n else PADDING_BUFFER_SIZE;
      var cs := [PaddingChunk(p)] + PaddingChunks(n - p);
      assert cs[1..] == PaddingChunks(n - p);
      cs
  }

  /** A padding chunk byte by byte: its prefix, which has no 0x80 in front, and zeros. */
  lemma PaddingBytes(p: nat)
    requires 1 <= p <= 1024
    ensures Encode(PaddingChunk(p)) ==
            if p <= 64 then [p - 1] + Zeros(p - 1) else [0x40 + (p - 2) / 128, (p - 2) % 128] + Zeros(p - 2)
  {
  }

  lemma FirstPiece(n: nat)
    ensures n >= 1024 ==> PaddingChunks(n) == [PaddingChunk(1024)] + PaddingChunks(n - 1024)
    ensures 0 < n < 1024 ==> PaddingChunks(n) == [PaddingChunk(n)]
    ensures PaddingChunks(0) == []
  {
  }

  function FullPieces(k: nat): (cs: seq<Chunk>)
    ensures |cs| == k
  {
    seq(k, _ => PaddingChunk(1024))
  }

  lemma OneMorePiece(k: nat)
    requires k > 0
    ensures FullPieces(k) == [PaddingChunk(1024)] + FullPieces(k - 1)
  {
  }

  /** Padding goes out in chunks of 1024 bytes, and one for what is left over. */
  lemma {:induction false} PaddingInPieces(n: nat, k: nat, left: nat)
    requires n == 1024 * k + left && left < 1024
    ensures PaddingChunks(n) == FullPieces(k) + if left == 0 then [] else [PaddingChunk(left)]
    decreases k
  {
    FirstPiece(n);
    var last := if left == 0 then [] else [PaddingChunk(left)];
    if k == 0 {
      assert FullPieces(0) + last == last;
    } else {
      PaddingInPieces(n - 1024, k - 1, left);
      OneMorePiece(k);
      ConcatIsAssociative([PaddingChunk(1024)], FullPieces(k - 1), last);
    }
  }

  /** The prefix and the body length of a padding chunk that takes `size` bytes in all. */
  method PaddingPrefix(size: nat) returns (prefix: seq<byte>, p: nat)
    requires 1 <= size <= PADDING_BUFFER_SIZE
    ensures prefix + Zeros(p) == Encode(PaddingChunk(size))
  {
    p := size;
    if FitsSixBits(p - 1) {
      p := p - 1;
      prefix := [p % 0x40];
    } else if FitsSixBits((p - 2) / 0x80) {
      p := p - 2;
      prefix := [0x40 + p / 0x80 % 0x40, p % 0x80];
    } else {
      prefix := [];
      assert false;  // a third byte is never needed: the buffer holds 1024 bytes
    }
  }

  lemma PaddingStep(out: seq<byte>, n: nat, p: nat)
    requires 1 <= p <= n && p == if n < PADDING_BUFFER_SIZE then n else PADDING_BUFFER_SIZE
    ensures out + EncodeAll(PaddingChunks(n)) == out + Encode(PaddingChunk(p)) + EncodeAll(PaddingChunks(n - p))
  {
    assert PaddingChunks(n)[1..] == PaddingChunks(n - p);
    assert EncodeAll(PaddingChunks(n)) == Encode(PaddingChunk(p)) + EncodeAll(PaddingChunks(n - p));
  }

  method WritePadding(w: ByteWriter, size: nat) returns (total: nat)
    modifies w
    ensures w.out == old(w.out) + EncodeAll(PaddingChunks(size)) && total == size
  {
    var n := size;
    total := 0;
    while n > 0
      invariant 0 <= n <= size && total == size - n
      invariant w.out + EncodeAll(PaddingChunks(n)) == old(w.out) + EncodeAll(PaddingChunks(size))
    {
      var p := PADDING_BUFFER_SIZE;
      if p > n {
        p := n;
      }
      PaddingStep(w.out, n, p);
      n := n - p;
      ghost var out, c := w.out, PaddingChunk(p);
      var prefix;
      prefix, p := PaddingPrefix(p);
      w.Write(prefix);
      w.Write(Zeros(p));
      ConcatIsAssociative(out, prefix, Zeros(p));
      assert w.out == out + Encode(c);
      total := total + |prefix| + p;
    }
    assert w.out + [] == w.out;
  }

  // ---------- writing, then reading ----------

  datatype Op = WriteDataOp(data: seq<byte>) | WritePaddingOp(n: nat)

  /** What one write appends, as the two methods above promise. */
  function Written(op: Op): (cs: seq<Chunk>)
    ensures AllWellFormed(cs)
  {
    match op
    case WriteDataOp(data) => DataChunks(data)
    case WritePaddingOp(n) => PaddingChunks(n)
  }

  function AllWritten(ops: seq<Op>): (cs: seq<Chunk>)
    ensures AllWellFormed(cs)
  {
    if ops == [] then [] else Written(ops[0]) + AllWritten(ops[1..])
  }

  /** The data that was accepted. */
  function DataWritten(ops: seq<Op>): seq<seq<byte>> {
    if ops == [] then []
    else (if ops[0].WriteDataOp? && |ops[0].data| < Limit(MAX_WIDTH) then [ops[0].data] else []) +
         DataWritten(ops[1..])
  }

  lemma {:induction false} PaddingCarriesNoData(cs: seq<Chunk>)
    requires OnlyPadding(cs)
    ensures DataOf(cs) == []
  {
    if cs != [] {
      PaddingCarriesNoData(cs[1..]);
    }
  }

  lemma {:induction false} DataOfAllWritten(ops: seq<Op>)
    ensures DataOf(AllWritten(ops)) == DataWritten(ops)
  {
    if ops != [] {
      DataOfAllWritten(ops[1..]);
      DataOfConcat(Written(ops[0]), AllWritten(ops[1..]));
      match ops[0]
      case WriteDataOp(data) => assert DataOf(Written(ops[0])) + [] == DataOf(Written(ops[0]));
      case WritePaddingOp(n) => PaddingCarriesNoData(PaddingChunks(n));
    }
  }

  /** However data and padding are interleaved, reading gives back the data, in order, and then the end. */
  lemma ReadBackWhatWasWritten(ops: seq<Op>)
    ensures ReadAll(EncodeAll(AllWritten(ops))) == (DataWritten(ops), End)
  {
    ReadsWholeStream(AllWritten(ops));
    DataOfAllWritten(ops);
  }

  // ---------- size budgets ----------

  /** The source panics on a budget of 0. */
  function MaxDataForSize(n: int): int
    requires n != 0
  {
    match DataPrefixForLength(n)
    case None => 0x10_0000 - 1 - 3
    case Some(prefix) => n - |prefix|
  }

  /** The bytes that WriteData takes for `data`. */
  function WrittenSize(data: seq<byte>): nat {
    |EncodeAll(DataChunks(data))|
  }

  lemma SizeOfWritten(data: seq<byte>)
    requires |data| < Limit(MAX_WIDTH)
    ensures WrittenSize(data) == MinWidth(|data|) + |data|
  {
    var c := DataChunks(data)[0];
    assert EncodeAll([c]) == Encode(c) + EncodeAll([]);
  }

  /** The budget is kept exactly when it is positive: a negative one gives the largest size of all. */
  lemma BudgetKeptIffPositive(n: int)
    requires n != 0
    ensures var m := MaxDataForSize(n);
            0 <= m < Limit(MAX_WIDTH) &&
            ((forall data: seq<byte> :: |data| == m ==> WrittenSize(data) <= n) <==> n >= 1)
  {
    PrefixIsShortest(n);
    forall data: seq<byte> | |data| == MaxDataForSize(n) ensures WrittenSize(data) <= n <==> n >= 1 {
      SizeOfWritten(data);
    }
    assert |Zeros(MaxDataForSize(n))| == MaxDataForSize(n);
  }

  /** The answer is the longest that fits, except where the prefix of the answer is shorter than that of `n`. */
  lemma LongestThatFitsIff(n: int)
    requires n >= 1
    ensures (forall data: seq<byte> ::
               |data| < Limit(MAX_WIDTH) && WrittenSize(data) <= n ==> |data| <= MaxDataForSize(n))
            <==> n != 0x40 && n != 0x2000 && n != 0x2001 && n < 0x10_0000
  {
    PrefixIsShortest(n);
    var m := MaxDataForSize(n);
    if n == 0x40 || n == 0x2000 || n == 0x2001 || n >= 0x10_0000 {
      var data := Zeros(m + 1);
      SizeOfWritten(data);
      assert WrittenSize(data) <= n && |data| > m;
    } else {
      forall data: seq<byte> | |data| < Limit(MAX_WIDTH) && WrittenSize(data) <= n ensures |data| <= m {
        SizeOfWritten(data);
      }
    }
  }

  /** Where it is not, it is short by one to three. */
  lemma ShortByAtMostThree(n: int, data: seq<byte>)
    requires n >= 1 && |data| < Limit(MAX_WIDTH) && WrittenSize(data) <= n
    ensures |data| <= MaxDataForSize(n) + 3
  {
    PrefixIsShortest(n);
    SizeOfWritten(data);
  }
}
