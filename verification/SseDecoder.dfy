/** The incremental decoder: however the bytes are cut into chunks, it yields what the stream means. */
module SseDecoder {
  import opened Wrappers
  import opened Bytes
  import opened Deposits
  import opened SseMeaning

  /** Bytes `i` to `j` belong to one line. */
  ghost predicate OneLine(s: Bytes, i: nat, j: nat)
    requires i <= j <= |s|
  {
    forall k :: i <= k < j ==> s[k] != NEWLINE
  }

  /** No line, finished or not, runs longer than the limit. */
  ghost predicate LinesFit(s: Bytes) {
    forall i: nat, j: nat :: i <= j <= |s| && OneLine(s, i, j) ==> j - i <= MAX_SSE_EVENT_BYTES
  }

  function Concat(chunks: seq<Bytes>): Bytes {
    if chunks == [] then [] else chunks[0] + Concat(chunks[1..])
  }

  /** What is still to come out: data collected so far, bytes buffered, bytes yet to arrive. */
  ghost function Pending(codec: Codec, records: seq<PaymentRecord>, data: Bytes, bytes: Bytes): Outcome {
    var p := TakeAll(codec, Progress(records, data, false), Lines(bytes));
    Outcome(p.records, p.failed)
  }

  /** The first line of the buffer is the first line of the stream. */
  lemma FirstLine(buf: Bytes, after: Bytes)
    requires LineEnd(buf) < |buf|
    ensures Lines(buf + after) == [buf[..LineEnd(buf) + 1]] + Lines(buf[LineEnd(buf) + 1..] + after)
  {
    var n := LineEnd(buf);
    LineEndConcat(buf, after);
    assert (buf + after)[..n + 1] == buf[..n + 1];
    assert (buf + after)[n + 1..] == buf[n + 1..] + after;
  }

  /** Once `line` is taken, what is still to come out of `bytes` is what comes out of `rest`. */
  ghost predicate ComesOff(codec: Codec, records: seq<PaymentRecord>, data: Bytes, bytes: Bytes, line: Bytes,
                           rest: Bytes)
  {
    var p := Take(codec, Progress(records, data, false), line);
    Pending(codec, records, data, bytes) ==
      if p.failed then Outcome(p.records, true) else Pending(codec, p.records, p.data, rest)
  }

  lemma PendingLines(codec: Codec, records: seq<PaymentRecord>, data: Bytes, bytes: Bytes, line: Bytes, rest: Bytes)
    requires Lines(bytes) == [line] + Lines(rest)
    ensures ComesOff(codec, records, data, bytes, line, rest)
  {
    TakeFirst(codec, Progress(records, data, false), Lines(bytes), line, Lines(rest));
  }

  lemma PendingFrom(codec: Codec, p: Progress, rest: seq<Bytes>)
    ensures TakeAll(codec, p, rest) == if p.failed then p else TakeAll(codec, Progress(p.records, p.data, false), rest)
  {
    if p.failed {
      FailedStays(codec, p, rest);
    } else {
      assert p == Progress(p.records, p.data, false);
    }
  }

  lemma TakeFirst(codec: Codec, p: Progress, lines: seq<Bytes>, line: Bytes, rest: seq<Bytes>)
    requires lines == [line] + rest
    ensures var q := Take(codec, p, line);
      TakeAll(codec, p, lines) == if q.failed then q else TakeAll(codec, Progress(q.records, q.data, false), rest)
  {
    assert lines[1..] == rest && lines[0] == line;
    PendingFrom(codec, Take(codec, p, line), rest);
  }

  lemma {:induction false} LineEndConcat(buf: Bytes, after: Bytes)
    requires LineEnd(buf) < |buf|
    ensures LineEnd(buf + after) == LineEnd(buf)
  {
    if buf[0] != NEWLINE {
      assert (buf + after)[1..] == buf[1..] + after;
      LineEndConcat(buf[1..], after);
    }
  }

  class Decoder {
    const codec: Codec
    var buf: Bytes
    var data: Bytes

    constructor (codec: Codec)
      ensures this.codec == codec && buf == [] && data == []
    {
      this.codec := codec;
      buf, data := [], [];
    }

    /** `feed`: refused only when the buffer is one unfinished line beyond the limit. */
    method Feed(bytes: Bytes) returns (ok: bool)
      modifies this`buf
      ensures buf == old(buf) + bytes
      ensures ok <==> |buf| <= MAX_SSE_EVENT_BYTES || NEWLINE in buf
    {
      buf := buf + bytes;
      ok := !(|buf| > MAX_SSE_EVENT_BYTES && NEWLINE !in buf);
    }

    /** One line of `next_record`. */
    method TakeLine(raw: Bytes, ghost records: seq<PaymentRecord>) returns (r: Result<Option<PaymentRecord>, ()>)
      modifies this`data
      ensures var p := Take(codec, Progress(records, old(data), false), raw);
        && (r.Err? <==> p.failed) && (r.Err? ==> p.records == records)
        && (r.Ok? ==> p.data == data)
        && (r.Ok? ==> p.records == if r.value.Some? then records + [r.value.value] else records)
    {
      if !codec.valid(raw) {
        return Err(());
      }
      var line := Stripped(raw);
      if line == [] {
        var payload := data;
        data := [];
        var parsed := codec.parse(payload);
        if parsed.Malformed? {
          return Err(());
        } else if parsed.Payment? {
          return Ok(Some(parsed.record));
        }
      } else if DATA <= line {
        if data != [] {
          data := data + [NEWLINE];
        }
        var value := line[|DATA|..];
        data := data + if value != [] && value[0] == SPACE then value[1..] else value;
        if |data| > MAX_SSE_EVENT_BYTES {
          return Err(());
        }
      }
      r := Ok(None);
    }

    /**
     * `next_record`: takes lines off the buffer until one completes a record, one fails, or none is
     * left. What the stream still means, given any bytes `after`, is unchanged but for what is returned.
     */
    method NextRecord(ghost records: seq<PaymentRecord>, ghost after: Bytes)
      returns (r: Result<Option<PaymentRecord>, ()>)
      modifies this`buf, this`data
      ensures var before := Pending(codec, records, old(data), old(buf) + after);
        match r
        case Err(_) => before == Outcome(records, true)
        case Ok(None) => NEWLINE !in buf && before == Pending(codec, records, data, buf + after)
        case Ok(Some(record)) => |buf| < |old(buf)| && before == Pending(codec, records + [record], data, buf + after)
      ensures exists n :: 0 <= n <= |old(buf)| && buf == old(buf)[n..]
    {
      ghost var taken := 0;
      while NEWLINE in buf
        invariant 0 <= taken <= |old(buf)| && buf == old(buf)[taken..]
        invariant Pending(codec, records, old(data), old(buf) + after) == Pending(codec, records, data, buf + after)
        decreases |buf|
      {
        var pos := LineEnd(buf);
        FirstLine(buf, after);
        PendingLines(codec, records, data, buf + after, buf[..pos + 1], buf[pos + 1..] + after);
        var raw := buf[..pos + 1];
        taken := taken + pos + 1;
        buf := buf[pos + 1..];
        r := TakeLine(raw, records);
        if r.Err? || r.value.Some? {
          return;
        }
      }
      r := Ok(None);
    }
  }

  /** A stream with its chunks still to be read. */
  class PaymentStream {
    const decoder: Decoder
    var chunks: seq<Bytes>

    constructor (codec: Codec, chunks: seq<Bytes>)
      ensures this.chunks == chunks && fresh(decoder)
      ensures decoder.codec == codec && decoder.buf == [] && decoder.data == []
    {
      decoder := new Decoder(codec);
      this.chunks := chunks;
    }

    /** All the bytes not yet decoded. */
    ghost function Remaining(): Bytes
      reads this, decoder
    {
      decoder.buf + Concat(chunks)
    }

    /** `PaymentStream::next_record`: None once the stream is closed and nothing more is buffered. */
    method NextRecord(ghost records: seq<PaymentRecord>) returns (r: Result<Option<PaymentRecord>, ()>)
      modifies this`chunks, decoder
      ensures LinesFit(old(Remaining())) ==> LinesFit(Remaining())
      ensures var before := Pending(decoder.codec, records, old(decoder.data), old(Remaining()));
        match r
        case Err(_) => before == Outcome(records, true) || !LinesFit(old(Remaining()))
        case Ok(None) => before == Outcome(records, false)
        case Ok(Some(record)) =>
          && |Remaining()| < |old(Remaining())|
          && before == Pending(decoder.codec, records + [record], decoder.data, Remaining())
    {
      while true
        invariant LinesFit(old(Remaining())) ==> LinesFit(Remaining())
        invariant |Remaining()| <= |old(Remaining())|
        invariant Pending(decoder.codec, records, old(decoder.data), old(Remaining()))
               == Pending(decoder.codec, records, decoder.data, Remaining())
        decreases |chunks|
      {
        ghost var buf, after := decoder.buf, Concat(chunks);
        r := decoder.NextRecord(records, after);
        assert |decoder.buf| <= |buf| && (LinesFit(buf + after) ==> LinesFit(decoder.buf + after)) by {
          if LinesFit(buf + after) {
            FitSuffix(buf, decoder.buf, after);
          }
        }
        if r.Err? || r.value.Some? {
          return;
        }
        if chunks == [] {
          assert Lines(decoder.buf + []) == [] by { assert decoder.buf + [] == decoder.buf; }
          return Ok(None);
        }
        assert decoder.buf + (chunks[0] + Concat(chunks[1..])) == decoder.buf + chunks[0] + Concat(chunks[1..]);
        var ok := decoder.Feed(chunks[0]);
        chunks := chunks[1..];
        if !ok {
          assert !LinesFit(Remaining()) by {
            if LinesFit(Remaining()) {
              FitPrefix(decoder.buf, Concat(chunks));
            }
          }
          return Err(());
        }
      }
    }
  }

  /** What is left of a stream whose lines fit has lines that fit. */
  lemma FitSuffix(before: Bytes, buf: Bytes, after: Bytes)
    requires LinesFit(before + after) && exists n :: 0 <= n <= |before| && buf == before[n..]
    ensures LinesFit(buf + after) && |buf| <= |before|
  {
    var n :| 0 <= n <= |before| && buf == before[n..];
    assert buf + after == (before + after)[n..];
    FitDropped(before + after, n);
  }

  lemma FitDropped(s: Bytes, n: nat)
    requires LinesFit(s) && n <= |s|
    ensures LinesFit(s[n..])
  {
    var t := s[n..];
    forall i: nat, j: nat | i <= j <= |t| && OneLine(t, i, j) ensures j - i <= MAX_SSE_EVENT_BYTES {
      assert OneLine(s, i + n, j + n) by {
        assert forall k :: i + n <= k < j + n ==> s[k] == t[k - n];
      }
    }
  }

  lemma FitPrefix(buf: Bytes, after: Bytes)
    requires LinesFit(buf + after)
    ensures |buf| <= MAX_SSE_EVENT_BYTES || NEWLINE in buf
  {
    if NEWLINE !in buf {
      var s := buf + after;
      assert forall k :: 0 <= k < |buf| ==> s[k] == buf[k];
      assert OneLine(s, 0, |buf|);
    }
  }

  /**
   * Everything a stream delivers to its reader, until it ends or fails. It depends only on the bytes,
   * not on how they were cut; a line beyond the limit can make it fail early, but never yield a record
   * the bytes do not mean.
   */
  method Collect(codec: Codec, chunks: seq<Bytes>) returns (records: seq<PaymentRecord>, failed: bool)
    ensures LinesFit(Concat(chunks)) ==> Outcome(records, failed) == Meaning(codec, Concat(chunks))
    ensures records <= Meaning(codec, Concat(chunks)).records
    ensures !failed ==> Outcome(records, false) == Meaning(codec, Concat(chunks))
  {
    var stream := new PaymentStream(codec, chunks);
    records := [];
    assert stream.Remaining() == Concat(chunks);
    TakeAllIsMeaning(codec, [], Lines(Concat(chunks)));
    while true
      invariant stream.decoder.codec == codec && fresh(stream) && fresh(stream.decoder)
      invariant LinesFit(Concat(chunks)) ==> LinesFit(stream.Remaining())
      invariant Pending(codec, records, stream.decoder.data, stream.Remaining()) == Meaning(codec, Concat(chunks))
      decreases |stream.Remaining()|
    {
      RecordsGrow(codec, Progress(records, stream.decoder.data, false), Lines(stream.Remaining()));
      var r := stream.NextRecord(records);
      if r.Err? || r.value.None? {
        return records, r.Err?;
      }
      records := records + [r.value.value];
    }
  }
}
