/** Byte streams that end, and sinks that do not fail. */
module Streams {
  import opened Bytes
  import opened Wrappers

  datatype ReadError = Eof | UnexpectedEof

  function ReadExactly(s: seq<byte>, n: nat): (Result<seq<byte>, ReadError>, seq<byte>) {
    if n <= |s| then (Ok(s[..n]), s[n..])
    else (Err(if s == [] then Eof else UnexpectedEof), [])
  }

  class ByteReader {
    var rest: seq<byte>

    constructor (s: seq<byte>)
      ensures rest == s
    {
      rest := s;
    }

    /** Reads exactly `n` bytes; at the end of the stream it takes what there is, and fails. */
    method ReadFull(n: nat) returns (p: Result<seq<byte>, ReadError>)
      modifies this
      ensures (p, rest) == ReadExactly(old(rest), n)
    {
      if n <= |rest| {
        p := Ok(rest[..n]);
        rest := rest[n..];
      } else {
        p := Err(if rest == [] then Eof else UnexpectedEof);
        rest := [];
      }
    }
  }

  class ByteWriter {
    var out: seq<byte>

    constructor ()
      ensures out == []
    {
      out := [];
    }

    method Write(s: seq<byte>)
      modifies this
      ensures out == old(out) + s
    {
      out := out + s;
    }
  }
}
