/** Chunks of data and padding in a byte stream: their format, apart from any code that reads or writes it. */
module ChunkFormat {
  import opened Bytes
  import opened Sequences

  const MAX_WIDTH := 3

  /** A chunk whose length takes `width` bytes, which need not be the fewest possible. */
  datatype Chunk = Chunk(isData: bool, width: nat, body: seq<byte>)

  /** The lengths that `width` bytes can hold. */
  function Limit(width: nat): nat
    requires 1 <= width <= MAX_WIDTH
  {
    match width case 1 => 0x40 case 2 => 0x2000 case _ => 0x10_0000
  }

  predicate WellFormed(c: Chunk) {
    1 <= c.width <= MAX_WIDTH && |c.body| < Limit(c.width)
  }

  predicate AllWellFormed(cs: seq<Chunk>) {
    forall i :: 0 <= i < |cs| ==> WellFormed(cs[i])
  }

  /** dcxxxxxx, then cyyyyyyy up to twice; c says that another length byte follows. */
  function Prefix(isData: bool, n: nat, width: nat): (p: seq<byte>)
    requires 1 <= width <= MAX_WIDTH && n < Limit(width)
    ensures |p| == width
  {
    var d := if isData then 0x80 else 0;
    match width
    case 1 => [d + n]
    case 2 => [d + 0x40 + n / 0x80, n % 0x80]
    case _ => [d + 0x40 + n / 0x4000, 0x80 + n / 0x80 % 0x80, n % 0x80]
  }

  function Encode(c: Chunk): (s: seq<byte>)
    requires WellFormed(c)
    ensures |s| == c.width + |c.body| > 0
  {
    Prefix(c.isData, |c.body|, c.width) + c.body
  }

  function EncodeAll(cs: seq<Chunk>): seq<byte>
    requires AllWellFormed(cs)
  {
    if cs == [] then [] else Encode(cs[0]) + EncodeAll(cs[1..])
  }

  lemma FirstEncoded(c: Chunk, cs: seq<Chunk>)
    requires WellFormed(c) && AllWellFormed(cs)
    ensures AllWellFormed([c] + cs) && EncodeAll([c] + cs) == Encode(c) + EncodeAll(cs)
  {
    assert ([c] + cs)[1..] == cs;
  }

  lemma {:induction false} EncodeAllConcat(cs: seq<Chunk>, ds: seq<Chunk>)
    requires AllWellFormed(cs) && AllWellFormed(ds)
    ensures AllWellFormed(cs + ds) && EncodeAll(cs + ds) == EncodeAll(cs) + EncodeAll(ds)
  {
    if cs == [] {
      assert cs + ds == ds;
    } else {
      var first, rest := Encode(cs[0]), cs[1..];
      EncodeAllConcat(rest, ds);
      assert cs + ds == [cs[0]] + (rest + ds);
      FirstEncoded(cs[0], rest + ds);
      ConcatIsAssociative(first, EncodeAll(rest), EncodeAll(ds));
    }
  }

  /** The bodies of the data chunks. */
  function DataOf(cs: seq<Chunk>): seq<seq<byte>> {
    if cs == [] then [] else (if cs[0].isData then [cs[0].body] else []) + DataOf(cs[1..])
  }

  lemma {:induction false} DataOfConcat(cs: seq<Chunk>, ds: seq<Chunk>)
    ensures DataOf(cs + ds) == DataOf(cs) + DataOf(ds)
  {
    if cs == [] {
      assert cs + ds == ds;
    } else {
      assert (cs + ds)[1..] == cs[1..] + ds;
      DataOfConcat(cs[1..], ds);
      ConcatIsAssociative(if cs[0].isData then [cs[0].body] else [], DataOf(cs[1..]), DataOf(ds));
    }
  }

  predicate OnlyPadding(cs: seq<Chunk>) {
    AllWellFormed(cs) && forall i :: 0 <= i < |cs| ==> !cs[i].isData
  }
}
