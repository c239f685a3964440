/**
 Record splitting for file lists and checksum lists (utils.go:91-131):
 the NUL-terminated split function and the choice between NUL and newline
 splitting made from the first bytes of the input.
 */
module Scan {
  import opened Wrappers
  import opened Io

  /** bytes.IndexByte: the index of the first `b` in `data`, or -1. */
  function IndexByte(data: seq<byte>, b: byte): (i: int)
    ensures -1 <= i < |data|
    ensures i == -1 <==> b !in data
    ensures i >= 0 ==> data[i] == b && b !in data[..i]
  {
    if |data| == 0 then -1
    else if data[0] == b then 0
    else
      var j := IndexByte(data[1..], b);
      assert j >= 0 ==> data[..j + 1] == [data[0]] + data[1..][..j];
      if j == -1 then -1 else j + 1
  }

  /** What a bufio.SplitFunc returns; a nil token is None. Its error is always nil here. */
  datatype Split = Split(advance: nat, token: Option<seq<byte>>)

  /** scanLinesZ (utils.go:92-106). */
  function ScanLinesZ(data: seq<byte>, atEOF: bool): (r: Split)
    ensures r.advance <= |data|
    ensures r.token.None? <==> NUL !in data && (!atEOF || |data| == 0)
    ensures r.token.None? ==> r.advance == 0
    ensures r.token.Some? ==> NUL !in r.token.value
    ensures NUL in data ==> data[..r.advance] == r.token.value + [NUL]
    ensures NUL !in data && atEOF && |data| > 0 ==> r.advance == |data| && r.token.value == data
  {
    if atEOF && |data| == 0 then Split(0, None)
    else
      var i := IndexByte(data, NUL);
      if i >= 0 then
        assert data[..i + 1] == data[0..i] + [NUL];
        Split(i + 1, Some(data[0..i]))
      else if atEOF then Split(|data|, Some(data))
      else Split(0, None)
  }

  /**
   Once a NUL is in the buffer, the token does not depend on how much more
   data follows it nor on whether the end was reached: a scanner that sees
   the input in pieces produces the same records as one that sees it whole.
   */
  lemma ScanLinesZPrefixStable(data: seq<byte>, more: seq<byte>, atEOF: bool, atEOF': bool)
    requires NUL in data
    ensures ScanLinesZ(data + more, atEOF') == ScanLinesZ(data, atEOF)
  {
    var i := IndexByte(data, NUL);
    var j := IndexByte(data + more, NUL);
    assert (data + more)[..i] == data[..i];
    assert (data + more)[i] == NUL;
    assert (data + more)[..j] == data[..j];
  }

  /** The records a NUL-splitting scanner yields from a whole stream. */
  function ScanAll(data: seq<byte>): (records: seq<seq<byte>>)
    ensures forall k :: 0 <= k < |records| ==> NUL !in records[k]
    decreases |data|
  {
    if |data| == 0 then []
    else
      var s := ScanLinesZ(data, true);
      [s.token.value] + ScanAll(data[s.advance..])
  }

  /** Each record followed by its NUL terminator. */
  function JoinTerminated(records: seq<seq<byte>>): seq<byte>
  {
    if |records| == 0 then [] else records[0] + [NUL] + JoinTerminated(records[1..])
  }

  /** The NUL a final unterminated record is missing. */
  function MissingTerminator(data: seq<byte>): seq<byte>
  {
    if |data| > 0 && data[|data| - 1] != NUL then [NUL] else []
  }

  lemma MissingTerminatorSuffix(head: seq<byte>, rest: seq<byte>)
    requires |rest| > 0
    ensures MissingTerminator(head + rest) == MissingTerminator(rest)
  {
    assert (head + rest)[|head + rest| - 1] == rest[|rest| - 1];
  }

  /** A record without NUL, terminated, is split off whole. */
  lemma SplitTerminated(t: seq<byte>, tail: seq<byte>)
    requires NUL !in t
    ensures ScanLinesZ(t + [NUL] + tail, true) == Split(|t| + 1, Some(t))
  {
    var data := t + [NUL] + tail;
    assert data[|t|] == NUL;
    assert data[..|t|] == t;
    var i := IndexByte(data, NUL);
    assert i == |t|;
  }

  lemma ScanAllTerminated(t: seq<byte>, tail: seq<byte>)
    requires NUL !in t
    ensures ScanAll(t + [NUL] + tail) == [t] + ScanAll(tail)
  {
    var data := t + [NUL] + tail;
    SplitTerminated(t, tail);
    assert data[|t| + 1..] == tail;
  }

  lemma ScanAllUnterminated(data: seq<byte>)
    requires |data| > 0 && NUL !in data
    ensures ScanAll(data) == [data]
  {
    assert data[|data|..] == [];
  }

  /**
   Splitting loses nothing: the records with their terminators give back
   the stream, plus a NUL when the stream's last record had none.
   */
  lemma {:induction false} ScanAllReconstructs(data: seq<byte>)
    ensures JoinTerminated(ScanAll(data)) == data + MissingTerminator(data)
    decreases |data|
  {
    if |data| > 0 {
      if NUL in data {
        var i := IndexByte(data, NUL);
        var t, rest := data[..i], data[i + 1..];
        assert data == t + [NUL] + rest;
        ScanAllTerminated(t, rest);
        ScanAllReconstructs(rest);
        assert JoinTerminated(ScanAll(data)) == t + [NUL] + JoinTerminated(ScanAll(rest));
        if |rest| > 0 {
          MissingTerminatorSuffix(t + [NUL], rest);
        } else {
          assert data[|data| - 1] == NUL;
        }
      } else {
        ScanAllUnterminated(data);
        assert data[|data| - 1] in data;
        assert JoinTerminated([data]) == data + [NUL] + JoinTerminated([]);
      }
    }
  }

  /** ... and records without NULs, each terminated, split back into themselves. */
  lemma {:induction false} ScanAllOfJoin(records: seq<seq<byte>>)
    requires forall k :: 0 <= k < |records| ==> NUL !in records[k]
    ensures ScanAll(JoinTerminated(records)) == records
    decreases |records|
  {
    if |records| > 0 {
      var t := records[0];
      var tail := JoinTerminated(records[1..]);
      assert JoinTerminated(records) == t + [NUL] + tail;
      ScanAllTerminated(t, tail);
      ScanAllOfJoin(records[1..]);
      assert records == [t] + records[1..];
    }
  }

  // ---------------------------------------------------------------------
  // getScanner

  /** How records are delimited: by NUL (scanLinesZ) or by newlines (bufio.ScanLines, not modelled further). */
  datatype SplitMode = NulTerminated | LineTerminated

  /** A bufio.Scanner: the split mode and the byte source it scans. */
  datatype Scanner = Scanner(split: SplitMode, source: Reader)

  /** Size of the buffer of the single peeking Read. */
  const PeekSize: nat := 8192

  /**
   getScanner (utils.go:109-131). Without forcing, one Read of at most
   8192 bytes is made; its bytes decide the split mode and are then put back
   in front of the rest of the source. A failing first read (other than
   io.EOF) is an error, and any bytes it returned are lost with it.
   */
  function GetScanner(f: Reader, zeroTerminated: bool): (r: Result<Scanner, End>)
    ensures zeroTerminated ==> r == Success(Scanner(NulTerminated, f))
    ensures !zeroTerminated ==> (r.Failure? <==> Read(f, PeekSize).0.err == Some(Broken))
    ensures r.Success? ==> Content(r.value.source) == Content(f) && r.value.source.end == f.end
    ensures !zeroTerminated && r.Success? ==>
              (r.value.split == NulTerminated <==> NUL in Read(f, PeekSize).0.data)
  {
    if zeroTerminated then Success(Scanner(NulTerminated, f))
    else
      var (peek, rest) := Read(f, PeekSize);
      if peek.err == Some(Broken) then Failure(Broken)
      else
        var split := if IndexByte(peek.data, NUL) != -1 then NulTerminated else LineTerminated;
        Success(Scanner(split, Prepend(peek.data, rest)))
  }

  /** io.MultiReader(bytes.NewReader(peek), rest). */
  function Prepend(peek: seq<byte>, rest: Reader): (r: Reader)
    ensures Content(r) == peek + Content(rest)
    ensures r.end == rest.end
  {
    assert Flatten([peek] + rest.chunks) == peek + Flatten(rest.chunks);
    Reader([peek] + rest.chunks, rest.last, rest.end)
  }

  /** The peeked bytes are at most 8192 bytes from the front of the source. */
  lemma PeekIsPrefix(f: Reader)
    ensures |Read(f, PeekSize).0.data| <= PeekSize
    ensures Read(f, PeekSize).0.data <= Content(f)
  {
    var (peek, rest) := Read(f, PeekSize);
    assert Content(f) == peek.data + Content(rest);
  }

  /**
   The decision sees only the first read: a NUL that the source delivers in
   a later read leaves the scanner splitting on newlines.
   */
  lemma ShortPeekMissesNul()
    ensures var f := Reader([[97, 10]], [0], Eof);
            NUL in Content(f) && GetScanner(f, false).Success? &&
            GetScanner(f, false).value.split == LineTerminated
  {
    var f := Reader([[97, 10]], [0], Eof);
    assert Content(f) == [97, 10, 0] by {
      assert Flatten(f.chunks) == [97, 10] + Flatten([]);
    }
    assert Content(f)[2] == NUL;
  }

  /**
   The records a NUL scanner yields, defined as the NUL split of everything
   its source delivers; bufio.Scanner's buffering is not modelled.
   */
  function NulRecords(s: Scanner): seq<seq<byte>>
  {
    ScanAll(Content(s.source))
  }

  lemma NulScannerRecords(f: Reader, zeroTerminated: bool)
    requires GetScanner(f, zeroTerminated).Success?
    requires GetScanner(f, zeroTerminated).value.split == NulTerminated
    ensures NulRecords(GetScanner(f, zeroTerminated).value) == ScanAll(Content(f))
  {
  }
}
