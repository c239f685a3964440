/**
 The hashing engine of hash.go, run sequentially: every goroutine that
 the source starts is modelled as one step of a loop, and every channel as
 the sequence of values sent on it.
 */
module Engine {
  import opened Wrappers
  import opened Io
  import opened Algorithms

  /**
   A digest as a symbolic term: the output of the construction's primitive
   over `message`. It stands for an uninterpreted function; the model never
   looks inside it.
   */
  datatype Digest = Digest(construction: Construction, message: seq<byte>)

  /** A running hash.Hash: its construction and the bytes it has absorbed. */
  datatype HashState = HashState(construction: Construction, absorbed: seq<byte>)

  /**
   Checksum: the requested algorithm, the hash state (None until
   initialised), the bytes-written counter and the finished sum.
   */
  datatype Checksum = Checksum(alg: Alg, state: Option<HashState>, written: int, sum: Option<Digest>)

  /**
   Checksums: the label of the input and its accumulators (None for a nil
   slice). The label is kept as the bytes of the Go string, as hashString
   builds it from the bytes it hashes; the escaping of names works on
   characters instead (see Escape).
   */
  datatype Checksums = Checksums(file: seq<byte>, checksums: Option<seq<Checksum>>)

  /**
   What the engine takes from outside this model: the algorithms getChosen
   returns, the process-wide MAC key, and which accumulators' Write reports
   an error (by position in the list). A failing Write accepts no bytes.
   */
  datatype Env = Env(chosen: seq<Alg>, macKey: Option<seq<byte>>, failing: set<nat>)

  const QUOTE: byte := 34

  /** getChosen: a fresh accumulator per chosen algorithm. */
  function GetChosen(env: Env): (cs: seq<Checksum>)
    ensures |cs| == |env.chosen|
    ensures forall i :: 0 <= i < |cs| ==> cs[i] == Checksum(env.chosen[i], None, 0, None)
  {
    seq(|env.chosen|, i requires 0 <= i < |env.chosen| => Checksum(env.chosen[i], None, 0, None))
  }

  /** The accumulators a call works on: the given list, or getChosen() for a nil one. */
  function Requested(checksums: Option<seq<Checksum>>, env: Env): seq<Checksum>
  {
    if checksums.Some? then checksums.value else GetChosen(env)
  }

  /** The state initHash gives an accumulator for `alg`. */
  function Initial(alg: Alg, env: Env): HashState
  {
    HashState(InitHash(alg, env.macKey), [])
  }

  /**
   hash.go:11-14 and 50-53: fill in a nil list, then initialise every
   entry. initHashes is defined outside the modelled files; it is taken to
   call initHash on each entry and to change nothing else.
   */
  function Prepare(checksums: Option<seq<Checksum>>, env: Env): (cs: seq<Checksum>)
    ensures |cs| == |Requested(checksums, env)|
    ensures forall i :: 0 <= i < |cs| ==>
              var c := Requested(checksums, env)[i];
              cs[i] == c.(state := Some(Initial(c.alg, env)))
  {
    var given := Requested(checksums, env);
    seq(|given|, i requires 0 <= i < |given| => given[i].(state := Some(Initial(given[i].alg, env))))
  }

  predicate Initialised(cs: seq<Checksum>)
  {
    forall i :: 0 <= i < |cs| ==> cs[i].state.Some?
  }

  /** What a Write call returns, with the accumulator after it. */
  datatype WriteResult = WriteResult(n: nat, failed: bool, after: Checksum)

  function Write(c: Checksum, data: seq<byte>, fails: bool): (w: WriteResult)
    requires c.state.Some?
    ensures w.after.alg == c.alg && w.after.written == c.written && w.after.sum == c.sum
    ensures w.after.state.Some? && w.after.state.value.construction == c.state.value.construction
    ensures w.failed == fails
    ensures fails ==> w.n == 0 && w.after == c
    ensures !fails ==> w.n == |data| && w.after.state.value.absorbed == c.state.value.absorbed + data
  {
    if fails then WriteResult(0, true, c)
    else
      var st := c.state.value;
      WriteResult(|data|, false, c.(state := Some(st.(absorbed := st.absorbed + data))))
  }

  /** hash.Hash.Sum over everything absorbed so far. */
  function Sum(c: Checksum): Digest
    requires c.state.Some?
  {
    Digest(c.state.value.construction, c.state.value.absorbed)
  }

  // ---------------------------------------------------------------------
  // hashBytes (hash.go:10-46)

  /** Whether hashBytes writes the accumulators one after another (hash.go:16). */
  predicate SequentialPath(count: nat, dataLength: nat)
  {
    count == 1 || dataLength == 0
  }

  /** What hashBytes leaves behind: whether it returned nil, and its accumulators. */
  datatype BytesRun = BytesRun(failed: bool, checksums: seq<Checksum>)

  /** One accumulator that has taken `data` and been summed. */
  function Finish(w: WriteResult): Checksum
    requires w.after.state.Some?
  {
    w.after.(written := w.n, sum := Some(Sum(w.after)))
  }

  /** The loop of hash.go:17-25 from position i on; it stops at the first failing Write. */
  function WriteInTurn(cs: seq<Checksum>, data: seq<byte>, failing: set<nat>, i: nat): (run: BytesRun)
    requires i <= |cs| && Initialised(cs)
    ensures |run.checksums| == |cs| && Initialised(run.checksums)
    ensures run.failed <==> exists j :: i <= j < |cs| && j in failing
    ensures forall j :: 0 <= j < i ==> run.checksums[j] == cs[j]
    ensures !run.failed ==> forall j :: i <= j < |cs| ==>
              run.checksums[j].alg == cs[j].alg &&
              run.checksums[j].written == |data| &&
              run.checksums[j].sum == Some(Digest(cs[j].state.value.construction, cs[j].state.value.absorbed + data))
    decreases |cs| - i
  {
    if i == |cs| then BytesRun(false, cs)
    else
      var w := Write(cs[i], data, i in failing);
      if w.failed then BytesRun(true, cs)
      else WriteInTurn(cs[i := Finish(w)], data, failing, i + 1)
  }

  /** One goroutine of hash.go:34-42: a failing Write leaves the accumulator as it was. */
  function WriteAlone(c: Checksum, data: seq<byte>, fails: bool): (r: Checksum)
    requires c.state.Some?
    ensures fails ==> r == c
    ensures !fails ==> r.alg == c.alg && r.written == |data| &&
                       r.sum == Some(Digest(c.state.value.construction, c.state.value.absorbed + data))
    ensures r.state.Some?
  {
    var w := Write(c, data, fails);
    if w.failed then c else Finish(w)
  }

  /** hashBytes on prepared accumulators. */
  function HashBytesRun(data: seq<byte>, cs: seq<Checksum>, failing: set<nat>): (run: BytesRun)
    requires Initialised(cs)
    ensures |run.checksums| == |cs| && Initialised(run.checksums)
  {
    if SequentialPath(|cs|, |data|) then WriteInTurn(cs, data, failing, 0)
    else BytesRun(false, seq(|cs|, i requires 0 <= i < |cs| => WriteAlone(cs[i], data, i in failing)))
  }

  /**
   hashBytes: None is Go's nil result. A failing Write discards the whole
   result on the sequential path and only that accumulator's count and sum
   on the concurrent one.
   */
  function HashBytes(data: seq<byte>, checksums: Option<seq<Checksum>>, env: Env): (r: Option<seq<Checksum>>)
    ensures var cs := Requested(checksums, env);
            r.None? <==> SequentialPath(|cs|, |data|) && exists i :: 0 <= i < |cs| && i in env.failing
    ensures var cs := Requested(checksums, env);
            r.Some? ==> |r.value| == |cs| && forall i :: 0 <= i < |cs| ==>
              r.value[i].alg == cs[i].alg &&
              (i !in env.failing ==>
                 r.value[i].written == |data| &&
                 r.value[i].sum == Some(Digest(InitHash(cs[i].alg, env.macKey), data))) &&
              (i in env.failing ==>
                 r.value[i].written == cs[i].written && r.value[i].sum == cs[i].sum)
  {
    var cs := Prepare(checksums, env);
    var run := HashBytesRun(data, cs, env.failing);
    assert forall i :: 0 <= i < |cs| ==> cs[i].state.value.absorbed + data == data;
    if run.failed then None else Some(run.checksums)
  }

  // ---------------------------------------------------------------------
  // hashF (hash.go:49-109)

  /** The distributor's read buffer (hash.go:90). */
  const StreamChunk: nat := 65536

  /** io.Copy's buffer; its size does not change what is copied. */
  const CopyBuffer: nat := 32768

  datatype Copied = Copied(n: nat, failed: bool, after: Checksum)

  /**
   io.Copy into one accumulator: every non-empty piece read is written,
   also one delivered together with io.EOF; a failing Write or a read
   error other than io.EOF stops the copy with an error.
   */
  function Copy(c: Checksum, f: Reader, fails: bool): (r: Copied)
    requires c.state.Some?
    ensures r.after.alg == c.alg && r.after.written == c.written && r.after.sum == c.sum
    ensures r.after.state.Some? && r.after.state.value.construction == c.state.value.construction
    ensures r.failed <==> f.end == Broken || (fails && |Content(f)| > 0)
    ensures !r.failed ==> r.n == |Content(f)| && r.after.state.value.absorbed == c.state.value.absorbed + Content(f)
    decreases Pending(f)
  {
    var (got, rest) := Read(f, CopyBuffer);
    var w := if |got.data| > 0 then Write(c, got.data, fails) else WriteResult(0, false, c);
    if w.failed then Copied(w.n, true, w.after)
    else if got.err == Some(Eof) then Copied(w.n, false, w.after)
    else if got.err == Some(Broken) then Copied(w.n, true, w.after)
    else
      var more := Copy(w.after, rest, fails);
      Copied(w.n + more.n, more.failed, more.after)
  }

  /** The chunks the distributor sends, the bytes it drops, and how the source ended. */
  datatype Distribution = Distribution(chunks: seq<seq<byte>>, dropped: seq<byte>, end: End)

  /**
   The distributor goroutine (hash.go:88-106): it reads 64 KiB at a time
   and sends each piece read without error to every worker. The read that
   reports io.EOF or an error ends the loop, and the bytes that came with it
   are not sent.
   */
  function Distribute(f: Reader): (d: Distribution)
    ensures forall k :: 0 <= k < |d.chunks| ==> |d.chunks[k]| <= StreamChunk
    ensures Flatten(d.chunks) + d.dropped == Content(f)
    ensures |d.dropped| <= StreamChunk
    ensures d.dropped == [] <==> f.last == []
    ensures d.end == f.end
    decreases Pending(f)
  {
    var (got, rest) := Read(f, StreamChunk);
    if got.err.Some? then Distribution([], got.data, got.err.value)
    else
      var d := Distribute(rest);
      FlattenAppend([got.data], d.chunks);
      assert Flatten([got.data]) == got.data;
      assert got.data + Flatten(d.chunks) + d.dropped == got.data + (Flatten(d.chunks) + d.dropped);
      Distribution([got.data] + d.chunks, d.dropped, d.end)
  }

  /** The bytes every streaming worker receives. */
  function Delivered(f: Reader): seq<byte>
  {
    Flatten(Distribute(f).chunks)
  }

  /** The receive loop of one worker (hash.go:76-82): write each chunk and add its count. */
  function Feed(c: Checksum, chunks: seq<seq<byte>>, fails: bool): (r: Checksum)
    requires c.state.Some?
    ensures r.alg == c.alg && r.sum == c.sum
    ensures r.state.Some? && r.state.value.construction == c.state.value.construction
    ensures !fails ==> r.written == c.written + |Flatten(chunks)| &&
                       r.state.value.absorbed == c.state.value.absorbed + Flatten(chunks)
    ensures fails ==> r.written == c.written && r.state == c.state
    decreases |chunks|
  {
    if |chunks| == 0 then c
    else
      var w := Write(c, chunks[0], fails);
      Feed(w.after.(written := c.written + w.n), chunks[1..], fails)
  }

  /** One streaming worker: the receive loop, then the sum (hash.go:74-84). */
  function Worker(c: Checksum, chunks: seq<seq<byte>>, fails: bool): (r: Checksum)
    requires c.state.Some?
    ensures r.alg == c.alg
    ensures !fails ==> r.written == c.written + |Flatten(chunks)| &&
                       r.sum == Some(Digest(c.state.value.construction, c.state.value.absorbed + Flatten(chunks)))
    ensures fails ==> r.written == c.written && r.sum == Some(Digest(c.state.value.construction, c.state.value.absorbed))
  {
    var fed := Feed(c, chunks, fails);
    fed.(sum := Some(Sum(fed)))
  }

  /**
   hashF. One accumulator is filled by io.Copy, and any error gives nil.
   Otherwise every worker is fed the same chunks, so each one's count grows by
   the bytes delivered without an error and its sum covers exactly those bytes.
   */
  function HashF(f: Reader, checksums: Option<seq<Checksum>>, env: Env): (r: Option<seq<Checksum>>)
    ensures var cs := Requested(checksums, env);
            |cs| == 1 ==>
              (r.None? <==> f.end == Broken || (0 in env.failing && |Content(f)| > 0)) &&
              (r.Some? ==> |r.value| == 1 && r.value[0].alg == cs[0].alg &&
                           r.value[0].written == |Content(f)| &&
                           r.value[0].sum == Some(Digest(InitHash(cs[0].alg, env.macKey), Content(f))))
    ensures var cs := Requested(checksums, env);
            |cs| != 1 ==>
              r.Some? && |r.value| == |cs| && forall i :: 0 <= i < |cs| ==>
                r.value[i].alg == cs[i].alg &&
                (i !in env.failing ==>
                   r.value[i].written == cs[i].written + |Delivered(f)| &&
                   r.value[i].sum == Some(Digest(InitHash(cs[i].alg, env.macKey), Delivered(f)))) &&
                (i in env.failing ==>
                   r.value[i].written == cs[i].written &&
                   r.value[i].sum == Some(Digest(InitHash(cs[i].alg, env.macKey), [])))
  {
    var cs := Prepare(checksums, env);
    assert forall i :: 0 <= i < |cs| ==> cs[i].state.value.absorbed == [];
    assert forall i :: 0 <= i < |cs| ==> cs[i].state.value.absorbed + Delivered(f) == Delivered(f);
    if |cs| == 1 then
      var copied := Copy(cs[0], f, 0 in env.failing);
      assert !copied.failed ==> copied.after.state.value.absorbed == Content(f) by {
        assert [] + Content(f) == Content(f);
      }
      if copied.failed then None
      else Some([copied.after.(written := copied.n, sum := Some(Sum(copied.after)))])
    else
      var d := Distribute(f);
      Some(seq(|cs|, i requires 0 <= i < |cs| => Worker(cs[i], d.chunks, i in env.failing)))
  }

  // ---------------------------------------------------------------------
  // hashFile (hash.go:111-157)

  /** What Stat reports about an open file. */
  datatype FileInfo = FileInfo(isDir: bool, size: int)

  /** An open file: its Stat result (None when Stat fails) and its contents as a source. */
  datatype OpenFile = OpenFile(info: Option<FileInfo>, reader: Reader)

  /**
   How hashFile ends. Every outcome but Hashed is a nil result;
   IndexOutOfRange is the run-time panic of hash.go:148. NoChecksums and
   ReadFailed are only produced by the corrected variants below.
   */
  datatype FileOutcome =
    | Hashed(result: Checksums)
    | OpenFailed
    | StatFailed
    | IsDirectory
    | SizeMismatch(written: int, expected: int)
    | IndexOutOfRange
    | NoChecksums
    | ReadFailed

  /** The outcome and the unreadable-file count after the call. */
  datatype FileReport = FileReport(outcome: FileOutcome, unreadable: nat)

  /** Files smaller than this (256 MiB) are read whole before hashing (hash.go:136). */
  const BufferLimit: int := 0x1000_0000

  /**
   hash.go:133-146: read the whole file and hash the buffer when it is
   small; stream it when it is large or the buffered attempt gave nil. After a
   successful io.ReadAll the file is at its end, so that fallback streams
   nothing. When hashBytes gave nil, the given accumulators are the ones it
   has already written to (the Go code hands the same accumulator objects on).
   */
  function Gather(checksums: Option<seq<Checksum>>, size: int, f: Reader, env: Env): Option<seq<Checksum>>
  {
    if size < BufferLimit then
      var (data, after) := ReadAll(f);
      if data.None? then HashF(after, checksums, env)
      else
        var run := HashBytesRun(data.value, Prepare(checksums, env), env.failing);
        if !run.failed then Some(run.checksums)
        else HashF(after, if checksums.Some? then Some(run.checksums) else None, env)
    else HashF(f, checksums, env)
  }

  /** The check of hash.go:148-156, which indexes the first accumulator whenever the size is positive. */
  function SizeCheck(file: seq<byte>, size: int, cs: Option<seq<Checksum>>): (o: FileOutcome)
    ensures o.Hashed? <==> size <= 0 || (cs.Some? && |cs.value| > 0 && cs.value[0].written == size)
    ensures o.IndexOutOfRange? <==> size > 0 && (cs.None? || |cs.value| == 0)
    ensures o.Hashed? ==> o.result == Checksums(file, cs)
    ensures o.SizeMismatch? ==> o.expected == size && o.written != size
    ensures o.Hashed? || o.IndexOutOfRange? || o.SizeMismatch?
  {
    if size > 0 && (cs.None? || |cs.value| == 0) then IndexOutOfRange
    else if size > 0 && cs.value[0].written != size then SizeMismatch(cs.value[0].written, size)
    else Hashed(Checksums(file, cs))
  }

  /** hashFile: `handle` is None when os.Open fails; `unreadable` is the running count of such files. */
  function HashFile(input: Checksums, handle: Option<OpenFile>, env: Env, unreadable: nat): (r: FileReport)
    ensures r.outcome.OpenFailed? <==> handle.None?
    ensures r.unreadable == if handle.None? then unreadable + 1 else unreadable
    ensures r.outcome.StatFailed? <==> handle.Some? && handle.value.info.None?
    ensures r.outcome.IsDirectory? <==> handle.Some? && handle.value.info.Some? && handle.value.info.value.isDir
    ensures r.outcome.Hashed? ==>
              var size := handle.value.info.value.size;
              r.outcome.result.file == input.file &&
              (size > 0 ==> r.outcome.result.checksums.Some? &&
                            |r.outcome.result.checksums.value| > 0 &&
                            r.outcome.result.checksums.value[0].written == size)
    ensures (handle.Some? && handle.value.info.Some? && !handle.value.info.value.isDir &&
             handle.value.info.value.size <= 0) ==> r.outcome.Hashed?
    ensures !r.outcome.NoChecksums? && !r.outcome.ReadFailed?
  {
    if handle.None? then FileReport(OpenFailed, unreadable + 1)
    else if handle.value.info.None? then FileReport(StatFailed, unreadable)
    else
      var info := handle.value.info.value;
      if info.isDir then FileReport(IsDirectory, unreadable)
      else
        var cs := Gather(input.checksums, info.size, handle.value.reader, env);
        FileReport(SizeCheck(input.file, info.size, cs), unreadable)
  }

  /** The fields of two accumulator lists that a caller can observe agree: algorithm, count and sum. */
  predicate SameSums(a: seq<Checksum>, b: seq<Checksum>)
  {
    |a| == |b| &&
    forall i :: 0 <= i < |a| ==> a[i].alg == b[i].alg && a[i].written == b[i].written && a[i].sum == b[i].sum
  }

  /** A small file that reads to io.EOF is hashed as one buffer whenever hashBytes succeeds on it. */
  lemma BufferedPath(checksums: Option<seq<Checksum>>, size: int, f: Reader, env: Env)
    requires size < BufferLimit && f.end == Eof
    requires HashBytes(Content(f), checksums, env).Some?
    ensures Gather(checksums, size, f, env) == HashBytes(Content(f), checksums, env)
  {
    var (data, after) := ReadAll(f);
    assert data == Some(Content(f));
  }

  /** A file of at least 256 MiB is streamed from its start. */
  lemma LargeFileStreams(checksums: Option<seq<Checksum>>, size: int, f: Reader, env: Env)
    requires size >= BufferLimit
    ensures Gather(checksums, size, f, env) == HashF(f, checksums, env)
  {
  }

  /** A small file whose io.ReadAll fails is streamed from where the failed read left it: nothing is left. */
  lemma ReadErrorStreams(checksums: Option<seq<Checksum>>, size: int, f: Reader, env: Env)
    requires size < BufferLimit && f.end == Broken
    ensures Gather(checksums, size, f, env) == HashF(Exhausted(Broken), checksums, env)
  {
    assert ReadAll(f).0.None?;
  }

  /**
   A small file that reads to io.EOF but on which hashBytes gives nil is
   streamed from its end, into the accumulators hashBytes already wrote to
   when a list was given, or into fresh ones otherwise.
   */
  lemma BufferFailureStreams(checksums: Option<seq<Checksum>>, size: int, f: Reader, env: Env)
    requires size < BufferLimit && f.end == Eof
    requires HashBytes(Content(f), checksums, env).None?
    ensures Gather(checksums, size, f, env) ==
            HashF(Exhausted(Eof),
                  if checksums.Some?
                  then Some(HashBytesRun(Content(f), Prepare(checksums, env), env.failing).checksums)
                  else None,
                  env)
  {
    assert ReadAll(f).0 == Some(Content(f));
  }

  /** A list with nothing counted yet: nil (getChosen's fresh accumulators) or every count zero. */
  predicate CountsZero(checksums: Option<seq<Checksum>>)
  {
    checksums.None? || forall i :: 0 <= i < |checksums.value| ==> checksums.value[i].written == 0
  }

  /** After the loop of hash.go:17-25, even one that stopped early, every count is the old one or the data length. */
  lemma {:induction false} WriteInTurnCounts(cs: seq<Checksum>, data: seq<byte>, failing: set<nat>, i: nat)
    requires i <= |cs| && Initialised(cs)
    ensures var run := WriteInTurn(cs, data, failing, i);
            forall j :: 0 <= j < |cs| ==>
              run.checksums[j].written == cs[j].written || run.checksums[j].written == |data|
    decreases |cs| - i
  {
    if i < |cs| {
      var w := Write(cs[i], data, i in failing);
      if !w.failed {
        WriteInTurnCounts(cs[i := Finish(w)], data, failing, i + 1);
      }
    }
  }

  /** Streaming adds at most the bytes the source holds to the first count (and sets it with one accumulator). */
  lemma StreamedCountBounded(f: Reader, checksums: Option<seq<Checksum>>, env: Env)
    ensures var cs := Requested(checksums, env);
            var r := HashF(f, checksums, env);
            r.Some? && |r.value| > 0 ==>
              r.value[0].written <= |Content(f)| + (if |cs| == 1 then 0 else cs[0].written)
  {
    var d := Distribute(f);
    assert |Flatten(d.chunks) + d.dropped| == |Content(f)|;
  }

  /** Hashing one buffer leaves the first count at the buffer's length or where it was. */
  lemma BufferedCountBounded(data: seq<byte>, checksums: Option<seq<Checksum>>, env: Env)
    ensures var cs := Requested(checksums, env);
            var r := HashBytes(data, checksums, env);
            r.Some? && |r.value| > 0 ==> r.value[0].written == |data| || r.value[0].written == cs[0].written
  {
  }

  /** The first count, when there is one, is below the size Stat reported. */
  predicate FirstCountBelow(cs: Option<seq<Checksum>>, size: int)
  {
    cs.Some? && |cs.value| > 0 ==> cs.value[0].written < size
  }

  /** The streaming paths on a list with nothing counted yet stay below a size the source does not reach. */
  lemma StreamedShort(f: Reader, checksums: Option<seq<Checksum>>, size: int, env: Env)
    requires CountsZero(checksums) && |Content(f)| < size
    ensures FirstCountBelow(HashF(f, checksums, env), size)
  {
    StreamedCountBounded(f, checksums, env);
  }

  /** The buffered path on a list with nothing counted yet counts the buffer or nothing. */
  lemma BufferedShort(data: seq<byte>, checksums: Option<seq<Checksum>>, size: int, env: Env)
    requires CountsZero(checksums) && |data| < size
    ensures FirstCountBelow(HashBytes(data, checksums, env), size)
  {
    BufferedCountBounded(data, checksums, env);
  }

  /**
   The fallback after hashBytes gave nil: the list it hands on counts the
   buffer or nothing, and streaming from the end adds nothing.
   */
  lemma FallbackShort(checksums: Option<seq<Checksum>>, size: int, f: Reader, env: Env)
    requires CountsZero(checksums) && size < BufferLimit && f.end == Eof && |Content(f)| < size
    requires HashBytes(Content(f), checksums, env).None?
    ensures FirstCountBelow(Gather(checksums, size, f, env), size)
  {
    BufferFailureStreams(checksums, size, f, env);
    var prepared := Prepare(checksums, env);
    var run := HashBytesRun(Content(f), prepared, env.failing);
    assert run.failed;
    assert run == WriteInTurn(prepared, Content(f), env.failing, 0);
    WriteInTurnCounts(prepared, Content(f), env.failing, 0);
    assert Content(Exhausted(Eof)) == [] by { assert Flatten([]) == []; }
    var next := if checksums.Some? then Some(run.checksums) else None;
    StreamedCountBounded(Exhausted(Eof), next, env);
  }

  /**
   A file that delivers fewer bytes than Stat reported is never reported as
   hashed, when the list given has nothing counted yet: every path counts
   at most the bytes delivered, and the size check compares that count with
   the reported size. (A list with counts already in it can reach the size
   by itself, so the restriction is needed.)
   */
  lemma ShortReadRejected(input: Checksums, info: FileInfo, f: Reader, env: Env)
    requires CountsZero(input.checksums) && !info.isDir && |Content(f)| < info.size
    ensures !HashFile(input, Some(OpenFile(Some(info), f)), env, 0).outcome.Hashed?
  {
    var given := input.checksums;
    if info.size >= BufferLimit {
      LargeFileStreams(given, info.size, f, env);
      StreamedShort(f, given, info.size, env);
    } else if f.end == Broken {
      ReadErrorStreams(given, info.size, f, env);
      assert Content(Exhausted(Broken)) == [] by { assert Flatten([]) == []; }
      StreamedShort(Exhausted(Broken), given, info.size, env);
    } else if HashBytes(Content(f), given, env).Some? {
      BufferedPath(given, info.size, f, env);
      BufferedShort(Content(f), given, info.size, env);
    } else {
      FallbackShort(given, info.size, f, env);
    }
    assert FirstCountBelow(Gather(given, info.size, f, env), info.size);
  }

  /**
   Why ShortReadRejected asks for counts of zero: a given list whose first
   accumulator already counts the size and whose Write fails passes the
   check on an empty file that Stat reports as 5 bytes long.
   */
  lemma CountedListPassesShortRead()
    ensures var input := Checksums([102], Some([Checksum(MD5, None, 5, None), Checksum(SHA1, None, 0, None)]));
            var f := Reader([], [], Eof);
            HashFile(input, Some(OpenFile(Some(FileInfo(false, 5)), f)), Env([], None, {0}), 0).outcome.Hashed?
  {
    var f := Reader([], [], Eof);
    assert ReadAll(f).0 == Some([]);
    assert Content(Exhausted(Eof)) == [] by { assert Flatten([]) == []; }
  }

  /** A source whose last read brings no bytes loses nothing to the distributor. */
  lemma DeliveredAll(f: Reader)
    requires f.last == []
    ensures Delivered(f) == Content(f)
  {
    var d := Distribute(f);
    assert Flatten(d.chunks) + [] == Flatten(d.chunks);
  }

  /**
   For fresh accumulators, no failing Write, and a source that ends with
   io.EOF without bytes attached, streaming and hashing one buffer give the
   same counts and sums.
   */
  lemma StreamingMatchesBuffered(f: Reader, env: Env)
    requires f.end == Eof && f.last == [] && env.failing == {}
    ensures HashF(f, None, env).Some? && HashBytes(Content(f), None, env).Some?
    ensures SameSums(HashF(f, None, env).value, HashBytes(Content(f), None, env).value)
  {
    DeliveredAll(f);
  }

  /**
   Under the same conditions, the 256 MiB threshold is invisible: whatever
   size Stat reports, hashFile's accumulators hold the sums of the whole file.
   */
  lemma GatherIgnoresThreshold(size: int, f: Reader, env: Env)
    requires f.end == Eof && f.last == [] && env.failing == {}
    ensures Gather(None, size, f, env).Some?
    ensures SameSums(Gather(None, size, f, env).value, HashBytes(Content(f), None, env).value)
  {
    StreamingMatchesBuffered(f, env);
    if size < BufferLimit {
      BufferedPath(None, size, f, env);
    }
  }

  /**
   A single accumulator whose Write fails on a small file is not reported
   as hashed: the fallback streams from the end of the file, counts no
   bytes, and the size check rejects it.
   */
  lemma BufferedWriteFailureRejected(input: Checksums, info: FileInfo, f: Reader, env: Env)
    requires !info.isDir && 0 < info.size < BufferLimit
    requires f.end == Eof && |Content(f)| == info.size
    requires |Requested(input.checksums, env)| == 1 && 0 in env.failing
    ensures HashFile(input, Some(OpenFile(Some(info), f)), env, 0).outcome == SizeMismatch(0, info.size)
  {
    var cs := Requested(input.checksums, env);
    assert !HashBytesRun(Content(f), Prepare(input.checksums, env), env.failing).failed ==> false by {
      assert SequentialPath(|cs|, |Content(f)|);
    }
    assert Content(Exhausted(Eof)) == [] by { assert Flatten([]) == []; }
  }

  /**
   When the source returns its last bytes together with io.EOF, the
   distributor drops them: two accumulators over the one-byte source "a"
   count nothing and sum the empty message.
   */
  lemma StreamingDropsBytesWithEof()
    ensures var r := HashF(Reader([], [97], Eof), None, Env([MD5, SHA1], None, {}));
            r.Some? && |r.value| == 2 &&
            r.value[0].written == 0 && r.value[0].sum == Some(Digest(Plain(MD5), [])) &&
            r.value[1].written == 0 && r.value[1].sum == Some(Digest(Plain(SHA1), []))
  {
    var f := Reader([], [97], Eof);
    var d := Distribute(f);
    assert Read(f, StreamChunk).0.err == Some(Eof);
    assert d.chunks == [];
    assert Delivered(f) == [];
  }

  /**
   With no list given, one chosen algorithm and a file whose read fails,
   both io.ReadAll and io.Copy fail, hashF returns nil, and hash.go:148
   indexes the nil list.
   */
  lemma NilChecksumsPanic()
    ensures var input := Checksums([102], None);
            var f := Reader([], [1, 2, 3, 4, 5], Broken);
            HashFile(input, Some(OpenFile(Some(FileInfo(false, 5)), f)), Env([MD5], None, {}), 0).outcome
              == IndexOutOfRange
  {
    var f := Reader([], [1, 2, 3, 4, 5], Broken);
    var env := Env([MD5], None, {});
    assert ReadAll(f).0.None?;
    assert HashF(Exhausted(Broken), None, env).None?;
  }

  /** hashFile with the size check made safe: no accumulator to check is reported as an error. */
  function HashFileChecked(input: Checksums, handle: Option<OpenFile>, env: Env, unreadable: nat): (r: FileReport)
    ensures !r.outcome.IndexOutOfRange?
    ensures r.unreadable == HashFile(input, handle, env, unreadable).unreadable
    ensures HashFile(input, handle, env, unreadable).outcome.IndexOutOfRange? <==> r.outcome.NoChecksums?
    ensures !r.outcome.NoChecksums? ==> r == HashFile(input, handle, env, unreadable)
  {
    if handle.None? || handle.value.info.None? || handle.value.info.value.isDir then
      HashFile(input, handle, env, unreadable)
    else
      var info := handle.value.info.value;
      var cs := Gather(input.checksums, info.size, handle.value.reader, env);
      if cs.None? || |cs.value| == 0 then
        if info.size > 0 then FileReport(NoChecksums, unreadable)
        else FileReport(Hashed(Checksums(input.file, cs)), unreadable)
      else FileReport(SizeCheck(input.file, info.size, cs), unreadable)
  }

  /**
   hashF only logs a read error (hash.go:93-97), so hashFile reports a file
   that Stat calls empty and whose read fails as hashed, with the digests of
   the empty message: the size check of hash.go:148 is skipped at size 0.
   */
  lemma BrokenZeroSizeFileHashed()
    ensures var f := Reader([], [], Broken);
            var r := HashFile(Checksums([102], None), Some(OpenFile(Some(FileInfo(false, 0)), f)),
                              Env([MD5, SHA1], None, {}), 0);
            r.outcome.Hashed? && r.outcome.result.checksums.Some? &&
            |r.outcome.result.checksums.value| == 2 &&
            r.outcome.result.checksums.value[0].sum == Some(Digest(Plain(MD5), []))
  {
    var f := Reader([], [], Broken);
    assert ReadAll(f).0.None?;
    assert Content(Exhausted(Broken)) == [] by { assert Flatten([]) == []; }
    assert Delivered(Exhausted(Broken)) == [];
  }

  /**
   hashF as evidently intended: a read error gives no result, instead of
   the digests of the bytes read before it. On a source that ends with
   io.EOF it is hashF.
   */
  function HashFReported(f: Reader, checksums: Option<seq<Checksum>>, env: Env): (r: Option<seq<Checksum>>)
    ensures f.end == Broken ==> r.None?
    ensures f.end == Eof ==> r == HashF(f, checksums, env)
    ensures |Requested(checksums, env)| != 1 ==> (r.None? <==> f.end == Broken)
  {
    if f.end == Broken then None else HashF(f, checksums, env)
  }

  /**
   hashFile as evidently intended: a file whose read fails gives no result
   whatever its size, there is no panic, and every other file is handled as
   by HashFileChecked.
   */
  function HashFileReported(input: Checksums, handle: Option<OpenFile>, env: Env, unreadable: nat): (r: FileReport)
    ensures !r.outcome.IndexOutOfRange?
    ensures r.unreadable == HashFile(input, handle, env, unreadable).unreadable
    ensures r.outcome.ReadFailed? <==>
              handle.Some? && handle.value.info.Some? && !handle.value.info.value.isDir &&
              handle.value.reader.end == Broken
    ensures r.outcome.Hashed? ==> handle.Some? && handle.value.reader.end == Eof
    ensures !r.outcome.ReadFailed? ==> r == HashFileChecked(input, handle, env, unreadable)
  {
    if handle.Some? && handle.value.info.Some? && !handle.value.info.value.isDir && handle.value.reader.end == Broken
    then FileReport(ReadFailed, unreadable)
    else HashFileChecked(input, handle, env, unreadable)
  }

  // ---------------------------------------------------------------------
  // hashStdin and hashString (hash.go:159-180)

  /** hashStdin: stream the given source with getChosen()'s accumulators, labelled with the empty string. */
  function HashStdin(f: Reader, env: Env): (r: Checksums)
    ensures r.file == []
    ensures |env.chosen| != 1 ==> r.checksums.Some? && |r.checksums.value| == |env.chosen|
    ensures |env.chosen| == 1 ==>
              (r.checksums.None? <==> f.end == Broken || (0 in env.failing && |Content(f)| > 0))
  {
    Checksums([], HashF(f, None, env))
  }

  /**
   With several algorithms hashStdin is never nil: a source that breaks
   after one byte gives digests of that byte alone.
   */
  lemma StdinBrokenTruncated()
    ensures var r := HashStdin(Reader([[97]], [98], Broken), Env([MD5, SHA1], None, {}));
            r.checksums.Some? && |r.checksums.value| == 2 &&
            r.checksums.value[0].written == 1 &&
            r.checksums.value[0].sum == Some(Digest(Plain(MD5), [97]))
  {
    var f := Reader([[97]], [98], Broken);
    var (first, rest) := Read(f, StreamChunk);
    assert first.data == [97] && first.err.None? && rest == Reader([], [98], Broken);
    assert Read(rest, StreamChunk).0.err == Some(Broken);
    assert Delivered(f) == [97];
  }

  /** hashStdin on the corrected hashF: a broken source gives no digests, and an intact one those of hashStdin. */
  function HashStdinReported(f: Reader, env: Env): (r: Checksums)
    ensures r.file == []
    ensures r.checksums.Some? ==> f.end == Eof
    ensures |env.chosen| != 1 ==> (r.checksums.None? <==> f.end == Broken)
    ensures f.end == Eof ==> r == HashStdin(f, env)
  {
    Checksums([], HashFReported(f, None, env))
  }

  /** One accumulator of hashString: initialise, write (the error is ignored), sum. */
  function HashStringOne(c: Checksum, str: seq<byte>, fails: bool, env: Env): Checksum
  {
    var w := Write(c.(state := Some(Initial(c.alg, env))), str, fails).after;
    w.(sum := Some(Sum(w)))
  }

  /**
   hashString: label the result with the string in double quotes and sum
   its bytes with every chosen algorithm. The written counters are never
   set, so they stay 0.
   */
  function HashString(str: seq<byte>, env: Env): (r: Checksums)
    ensures r.file == [QUOTE] + str + [QUOTE]
    ensures r.checksums.Some? && |r.checksums.value| == |env.chosen|
    ensures forall i :: 0 <= i < |env.chosen| ==>
              r.checksums.value[i].alg == env.chosen[i] &&
              r.checksums.value[i].written == 0 &&
              r.checksums.value[i].sum ==
                Some(Digest(InitHash(env.chosen[i], env.macKey), if i in env.failing then [] else str))
  {
    var cs := GetChosen(env);
    assert [] + str == str;
    Checksums([QUOTE] + str + [QUOTE],
              Some(seq(|cs|, i requires 0 <= i < |cs| => HashStringOne(cs[i], str, i in env.failing, env))))
  }
}
