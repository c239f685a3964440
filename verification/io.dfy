/**
 The byte streams the hashing engine and the record scanner read, as seen
 through Go's io.Reader: every call to Read hands back some bytes and,
 possibly, an error, of which io.EOF is the ordinary one.
 */
module Io {
  import opened Wrappers

  type byte = b: int | 0 <= b < 256

  const NUL: byte := 0

  /** Concatenation of a sequence of byte chunks. */
  function Flatten(chunks: seq<seq<byte>>): seq<byte>
  {
    if |chunks| == 0 then [] else chunks[0] + Flatten(chunks[1..])
  }

  lemma {:induction false} FlattenAppend(a: seq<seq<byte>>, b: seq<seq<byte>>)
    ensures Flatten(a + b) == Flatten(a) + Flatten(b)
  {
    if |a| == 0 {
      assert a + b == b;
    } else {
      assert (a + b)[1..] == a[1..] + b;
      FlattenAppend(a[1..], b);
    }
  }

  /** How a stream ends: io.EOF, or any other error. */
  datatype End = Eof | Broken

  /** What one call to Read returns: n bytes and an optional error. */
  datatype ReadResult = ReadResult(data: seq<byte>, err: Option<End>)

  /**
   A source of bytes. Successive reads deliver `chunks` with a nil error,
   then `last` together with `end`; from then on every read delivers no
   bytes and `end` again. A read never hands back more bytes than the
   caller's buffer holds: a longer chunk is split across reads.
   */
  datatype Reader = Reader(chunks: seq<seq<byte>>, last: seq<byte>, end: End)

  /** Every byte the source can deliver, in order. */
  function Content(r: Reader): seq<byte>
  {
    Flatten(r.chunks) + r.last
  }

  /** A source that has already reported how it ends. */
  function Exhausted(end: End): Reader
  {
    Reader([], [], end)
  }

  /** A measure that every read which does not report the end decreases. */
  function Pending(r: Reader): nat
  {
    |Content(r)| + |r.chunks|
  }

  /** One call of Read with a buffer of `size` bytes. */
  function Read(r: Reader, size: nat): (res: (ReadResult, Reader))
    requires size > 0
    ensures |res.0.data| <= size
    ensures res.0.data + Content(res.1) == Content(r)
    ensures res.1.end == r.end
    ensures res.0.err.None? ==> Pending(res.1) < Pending(r)
    ensures res.0.err.Some? ==> res.0.err == Some(r.end) && res.1 == Exhausted(r.end)
    ensures res.0.err.Some? <==> |r.chunks| == 0 && |r.last| <= size
    ensures res.0.err.None? ==> (res.1.last == [] <==> r.last == [])
  {
    if |r.chunks| > 0 then
      var c := r.chunks[0];
      assert Flatten(r.chunks) == c + Flatten(r.chunks[1..]);
      if |c| <= size then
        (ReadResult(c, None), r.(chunks := r.chunks[1..]))
      else
        assert Flatten([c[size..]] + r.chunks[1..]) == c[size..] + Flatten(r.chunks[1..]);
        assert c == c[..size] + c[size..];
        (ReadResult(c[..size], None), r.(chunks := [c[size..]] + r.chunks[1..]))
    else if |r.last| <= size then
      (ReadResult(r.last, Some(r.end)), Exhausted(r.end))
    else
      assert r.last == r.last[..size] + r.last[size..];
      (ReadResult(r.last[..size], None), r.(last := r.last[size..]))
  }

  /** First buffer size of io.ReadAll; the buffer's later growth does not change what is read. */
  const ReadAllBuffer: nat := 512

  /**
   io.ReadAll as hashFile uses it: read until the source reports its end,
   keeping the bytes delivered together with the end. io.ReadAll returns the
   bytes read together with any error other than io.EOF, and hashFile
   ignores them then (hash.go:138-139), so the data is given only when the
   end is io.EOF. The source is left exhausted.
   */
  function ReadAll(r: Reader): (res: (Option<seq<byte>>, Reader))
    ensures res.1 == Exhausted(r.end)
    ensures res.0.Some? <==> r.end == Eof
    ensures res.0.Some? ==> res.0.value == Content(r)
  {
    var (data, rest) := ReadAllFrom(r);
    if r.end == Eof then (Some(data), rest) else (None, rest)
  }

  /** The read loop inside io.ReadAll, returning all bytes read. */
  function ReadAllFrom(r: Reader): (res: (seq<byte>, Reader))
    ensures res.0 == Content(r)
    ensures res.1 == Exhausted(r.end)
    decreases Pending(r)
  {
    var (got, rest) := Read(r, ReadAllBuffer);
    if got.err.Some? then (got.data, rest)
    else
      var (more, final) := ReadAllFrom(rest);
      (got.data + more, final)
  }
}
