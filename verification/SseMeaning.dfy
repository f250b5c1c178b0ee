/** What a text/event-stream of Horizon operations means: split into lines, group, join, parse. */
module SseMeaning {
  import opened Bytes
  import opened Deposits

  const NEWLINE: Byte := 10
  const RETURN: Byte := 13
  const SPACE: Byte := 32
  /** "data:" */
  const DATA: Bytes := [100, 97, 116, 97, 58]
  const MAX_SSE_EVENT_BYTES: nat := 1024 * 1024

  /** What an event's payload turns out to be. */
  datatype Parsed = Control | Payment(record: PaymentRecord) | Malformed

  /** UTF-8 validation of a line and JSON parsing of a payload: any total functions will do. */
  datatype Codec = Codec(valid: Bytes -> bool, parse: Bytes -> Parsed)

  /** What a whole stream yields: the records in order, and whether it then fails. */
  datatype Outcome = Outcome(records: seq<PaymentRecord>, failed: bool)

  // --- lines --------------------------------------------------------------------------------------

  /** The position of the first newline, or the length if there is none. */
  function LineEnd(s: Bytes): (n: nat)
    ensures n <= |s| && (n < |s| ==> s[n] == NEWLINE)
    ensures forall i :: 0 <= i < n ==> s[i] != NEWLINE
  {
    if s == [] || s[0] == NEWLINE then 0 else 1 + LineEnd(s[1..])
  }

  /** The complete lines, each with its newline. */
  function Lines(s: Bytes): seq<Bytes>
    decreases |s|
  {
    var n := LineEnd(s);
    if n == |s| then [] else [s[..n + 1]] + Lines(s[n + 1..])
  }

  /** `trim_end_matches(['\n', '\r'])`. */
  function Stripped(line: Bytes): Bytes {
    if line != [] && (line[|line| - 1] == NEWLINE || line[|line| - 1] == RETURN) then Stripped(line[..|line| - 1])
    else line
  }

  predicate IsBlank(line: Bytes) {
    Stripped(line) == []
  }

  predicate IsData(line: Bytes) {
    DATA <= Stripped(line)
  }

  /** The value of a data line, less one leading space. */
  function DataValue(line: Bytes): Bytes
    requires IsData(line)
  {
    var value := Stripped(line)[|DATA|..];
    if value != [] && value[0] == SPACE then value[1..] else value
  }

  // --- on literal bytes -----------------------------------------------------------------------------------

  /** The two ways a line may end: a newline, or a return and a newline. */
  predicate IsEnding(ending: Bytes) {
    ending == [10] || ending == [13, 10]
  }

  lemma StrippedEnding(text: Bytes, ending: Bytes)
    requires IsEnding(ending) && (text != [] ==> text[|text| - 1] != 10 && text[|text| - 1] != 13)
    ensures Stripped(text + ending) == text
  {
    var line := text + ending;
    assert Stripped(text) == text;
    if ending == [10] {
      assert line[..|line| - 1] == text;
    } else {
      assert line[..|line| - 1] == text + [13];
      assert (text + [13])[..|text|] == text;
    }
  }

  /** An empty line is blank, and no data line. */
  lemma BlankLine()
    ensures IsBlank([10]) && !IsData([10]) && IsBlank([13, 10]) && !IsData([13, 10])
  {
    StrippedEnding([], [10]);
    StrippedEnding([], [13, 10]);
    assert [] + [10] == [10] && [] + [13, 10] == [13, 10];
  }

  /** "data:" and a payload, with or without one space, is a data line whose value is that payload. */
  lemma DataLine(payload: Bytes, ending: Bytes)
    requires IsEnding(ending) && payload != []
    requires payload[|payload| - 1] != 10 && payload[|payload| - 1] != 13
    ensures var line := [100, 97, 116, 97, 58, 32] + payload + ending;
      !IsBlank(line) && IsData(line) && DataValue(line) == payload
    ensures payload[0] != 32 ==>
      var line := [100, 97, 116, 97, 58] + payload + ending;
      !IsBlank(line) && IsData(line) && DataValue(line) == payload
  {
    StrippedEnding([100, 97, 116, 97, 58, 32] + payload, ending);
    StrippedEnding([100, 97, 116, 97, 58] + payload, ending);
    assert ([100, 97, 116, 97, 58, 32] + payload)[5..] == [32] + payload;
    assert ([32] + payload)[1..] == payload;
    assert ([100, 97, 116, 97, 58] + payload)[5..] == payload;
  }

  /** Any other line, such as an event name or a comment, is neither. */
  lemma OtherLine(text: Bytes, ending: Bytes)
    requires IsEnding(ending) && text != [] && text[|text| - 1] != 10 && text[|text| - 1] != 13
    requires !([100, 97, 116, 97, 58] <= text)
    ensures !IsBlank(text + ending) && !IsData(text + ending)
  {
    StrippedEnding(text, ending);
  }

  // --- events ---------------------------------------------------------------------------------------

  /** The values of the data lines, in order. */
  function Values(lines: seq<Bytes>): seq<Bytes> {
    if lines == [] then []
    else (if IsData(lines[0]) then [DataValue(lines[0])] else []) + Values(lines[1..])
  }

  /** Leading empty values leave no trace in the payload. */
  function DropLeadingEmpty(values: seq<Bytes>): seq<Bytes> {
    if values != [] && values[0] == [] then DropLeadingEmpty(values[1..]) else values
  }

  /** The values with a newline between each two. */
  function Join(values: seq<Bytes>): Bytes {
    if values == [] then []
    else if |values| == 1 then values[0]
    else values[0] + [NEWLINE] + Join(values[1..])
  }

  function Payload(group: seq<Bytes>): Bytes {
    Join(DropLeadingEmpty(Values(group)))
  }

  /** A line is not text, or the event outgrows the limit. */
  predicate Bad(codec: Codec, group: seq<Bytes>) {
    (exists i :: 0 <= i < |group| && !codec.valid(group[i])) || |Payload(group)| > MAX_SSE_EVENT_BYTES
  }

  /** The position of the first blank line, or the length if there is none. */
  function FirstBlank(lines: seq<Bytes>): (n: nat)
    ensures n <= |lines| && (n < |lines| ==> IsBlank(lines[n]))
    ensures forall i :: 0 <= i < n ==> !IsBlank(lines[i])
  {
    if lines == [] || IsBlank(lines[0]) then 0 else 1 + FirstBlank(lines[1..])
  }

  /** Each blank line ends an event; an event never ended yields nothing. */
  function MeaningOf(codec: Codec, lines: seq<Bytes>): Outcome
    decreases |lines|
  {
    var n := FirstBlank(lines);
    var group := lines[..n];
    if n == |lines| then Outcome([], Bad(codec, group))
    else if Bad(codec, group) || !codec.valid(lines[n]) then Outcome([], true)
    else
      var rest := MeaningOf(codec, lines[n + 1..]);
      match codec.parse(Payload(group))
      case Malformed => Outcome([], true)
      case Control => rest
      case Payment(record) => Outcome([record] + rest.records, rest.failed)
  }

  function Meaning(codec: Codec, s: Bytes): Outcome {
    MeaningOf(codec, Lines(s))
  }

  /** What one parsed payload contributes. */
  function Yield(parsed: Parsed): Outcome {
    match parsed
    case Control => Outcome([], false)
    case Payment(record) => Outcome([record], false)
    case Malformed => Outcome([], true)
  }

  /** One outcome, and unless it failed the next. */
  function Then(first: Outcome, rest: Outcome): Outcome {
    if first.failed then first else Outcome(first.records + rest.records, rest.failed)
  }

  /**
   * One data line and an empty one mean exactly what the payload parses to, and then comes the rest; beyond a
   * mebibyte they fail.
   */
  lemma OneEvent(codec: Codec, payload: Bytes, ending: Bytes, rest: Bytes)
    requires IsEnding(ending) && payload != [] && NEWLINE !in payload && payload[|payload| - 1] != 13
    requires codec.valid([100, 97, 116, 97, 58, 32] + payload + ending) && codec.valid(ending)
    ensures Meaning(codec, [100, 97, 116, 97, 58, 32] + payload + ending + (ending + rest))
         == if |payload| > 1_048_576 then Outcome([], true)
            else Then(Yield(codec.parse(payload)), Meaning(codec, rest))
  {
    DataLine(payload, ending);
    BlankLine();
    LineOf([100, 97, 116, 97, 58, 32] + payload, ending, ending + rest);
    LineOf([], ending, rest);
    assert [] + ending + rest == ending + rest && [] + ending == ending;
    EventLines(codec, [100, 97, 116, 97, 58, 32] + payload + ending, ending, payload, Lines(rest));
  }

  lemma EventLines(codec: Codec, line: Bytes, blank: Bytes, payload: Bytes, rest: seq<Bytes>)
    requires IsData(line) && !IsBlank(line) && DataValue(line) == payload && IsBlank(blank)
    requires payload != [] && codec.valid(line) && codec.valid(blank)
    ensures MeaningOf(codec, [line] + ([blank] + rest))
         == if |payload| > 1_048_576 then Outcome([], true)
            else Then(Yield(codec.parse(payload)), MeaningOf(codec, rest))
  {
    var lines := [line] + ([blank] + rest);
    assert lines[1..] == [blank] + rest && lines[..1] == [line] && lines[2..] == rest;
    assert FirstBlank(lines[1..]) == 0 && FirstBlank(lines) == 1;
    OneValue(line, payload);
  }

  lemma OneValue(line: Bytes, payload: Bytes)
    requires IsData(line) && DataValue(line) == payload && payload != []
    ensures Payload([line]) == payload
  {
    var none: seq<Bytes> := [line][1..];
    assert none == [] && Values(none) == [];
    assert Values([line]) == [payload];
  }

  /** The values of two data lines are joined by a newline, and other lines play no part. */
  lemma TwoValues(first: Bytes, other: Bytes, second: Bytes, p: Bytes, q: Bytes)
    requires IsData(first) && DataValue(first) == p && p != []
    requires IsData(second) && DataValue(second) == q && !IsData(other)
    ensures Payload([first, other, second]) == p + [10] + q
  {
    var none: seq<Bytes> := [second][1..];
    assert none == [] && Values(none) == [];
    assert [first, other, second][1..] == [other, second] && [other, second][1..] == [second];
    assert Values([second]) == [q] && Values([other, second]) == [q];
    assert Values([first, other, second]) == [p, q];
    assert DropLeadingEmpty([p, q]) == [p, q] && [p, q][1..] == [q] && Join([q]) == q;
  }

  /** A text without newlines and its ending are the first line. */
  lemma LineOf(text: Bytes, ending: Bytes, rest: Bytes)
    requires IsEnding(ending) && NEWLINE !in text
    ensures Lines(text + ending + rest) == [text + ending] + Lines(rest)
  {
    var s := text + ending + rest;
    var n := |text| + |ending| - 1;
    assert s[n] == NEWLINE && forall i :: 0 <= i < n ==> s[i] != NEWLINE;
    assert LineEnd(s) == n;
    assert s[..n + 1] == text + ending && s[n + 1..] == rest;
  }

  // --- the same, one line at a time --------------------------------------------------------------------

  datatype Progress = Progress(records: seq<PaymentRecord>, data: Bytes, failed: bool)

  /** Append one value to the data collected so far. */
  function Glue(data: Bytes, value: Bytes): Bytes {
    if data == [] then value else data + [NEWLINE] + value
  }

  function Take(codec: Codec, p: Progress, line: Bytes): Progress {
    if p.failed then p
    else if !codec.valid(line) then p.(failed := true)
    else if IsBlank(line) then
      match codec.parse(p.data)
      case Malformed => p.(failed := true)
      case Control => p.(data := [])
      case Payment(record) => p.(records := p.records + [record], data := [])
    else if IsData(line) then
      var data := Glue(p.data, DataValue(line));
      p.(data := data, failed := |data| > MAX_SSE_EVENT_BYTES)
    else p
  }

  function TakeAll(codec: Codec, p: Progress, lines: seq<Bytes>): Progress
    decreases |lines|
  {
    if lines == [] then p else TakeAll(codec, Take(codec, p, lines[0]), lines[1..])
  }

  // --- they agree ----------------------------------------------------------------------------------------

  lemma {:induction false} TakeAllConcat(codec: Codec, p: Progress, a: seq<Bytes>, b: seq<Bytes>)
    ensures TakeAll(codec, p, a + b) == TakeAll(codec, TakeAll(codec, p, a), b)
    decreases |a|
  {
    if a == [] {
      assert a + b == b;
    } else {
      assert (a + b)[1..] == a[1..] + b;
      TakeAllConcat(codec, Take(codec, p, a[0]), a[1..], b);
    }
  }

  lemma {:induction false} FailedStays(codec: Codec, p: Progress, lines: seq<Bytes>)
    requires p.failed
    ensures TakeAll(codec, p, lines) == p
  {
    if lines != [] {
      FailedStays(codec, p, lines[1..]);
    }
  }

  lemma {:induction false} ValuesConcat(a: seq<Bytes>, b: seq<Bytes>)
    ensures Values(a + b) == Values(a) + Values(b)
  {
    if a == [] {
      assert a + b == b;
    } else {
      assert (a + b)[1..] == a[1..] + b;
      ValuesConcat(a[1..], b);
    }
  }

  lemma {:induction false} JoinLast(values: seq<Bytes>, value: Bytes)
    requires values != []
    ensures Join(values + [value]) == Join(values) + [NEWLINE] + value
  {
    assert (values + [value])[1..] == values[1..] + [value];
    if |values| > 1 {
      JoinLast(values[1..], value);
      assert values[0] + [NEWLINE] + (Join(values[1..]) + [NEWLINE] + value)
          == values[0] + [NEWLINE] + Join(values[1..]) + [NEWLINE] + value;
    }
  }

  /** Gluing value after value is dropping the leading empty ones and joining the rest. */
  lemma {:induction false} GlueIsJoin(values: seq<Bytes>, value: Bytes)
    ensures Join(DropLeadingEmpty(values + [value])) == Glue(Join(DropLeadingEmpty(values)), value)
  {
    if values == [] {
      assert values + [value] == [value];
    } else if values[0] == [] {
      assert (values + [value])[1..] == values[1..] + [value];
      GlueIsJoin(values[1..], value);
    } else {
      JoinLast(values, value);
      assert Join(values) != [];
    }
  }

  lemma PayloadGrows(group: seq<Bytes>, line: Bytes)
    ensures Payload(group + [line])
         == if IsData(line) then Glue(Payload(group), DataValue(line)) else Payload(group)
  {
    ValuesConcat(group, [line]);
    assert [line][1..] == [];
    if IsData(line) {
      assert Values([line]) == [DataValue(line)];
      GlueIsJoin(Values(group), DataValue(line));
    } else {
      assert Values(group) + [] == Values(group);
    }
  }

  /** Within one event, taking lines collects the payload, or fails when the event is bad. */
  lemma {:induction false} TakeGroup(codec: Codec, records: seq<PaymentRecord>, group: seq<Bytes>)
    requires forall i :: 0 <= i < |group| ==> !IsBlank(group[i])
    ensures var p := TakeAll(codec, Progress(records, [], false), group);
      p.records == records && p.failed == Bad(codec, group) && (!p.failed ==> p.data == Payload(group))
  {
    if group != [] {
      var n := |group| - 1;
      var init, line := group[..n], group[n];
      assert group == init + [line];
      TakeGroup(codec, records, init);
      TakeAllConcat(codec, Progress(records, [], false), init, [line]);
      PayloadGrows(init, line);
      BadGrows(codec, init, line);
      var p := TakeAll(codec, Progress(records, [], false), init);
      var tail: seq<Bytes> := [line];
      assert tail[1..] == [];
      assert TakeAll(codec, p, tail) == Take(codec, p, line);
    }
  }

  /** An event goes bad at its first bad line and stays bad. */
  lemma BadGrows(codec: Codec, group: seq<Bytes>, line: Bytes)
    ensures Bad(codec, group + [line]) <==>
      Bad(codec, group) || !codec.valid(line) || |Payload(group + [line])| > MAX_SSE_EVENT_BYTES
  {
    PayloadGrows(group, line);
    var longer := group + [line];
    if i :| 0 <= i < |group| && !codec.valid(group[i]) {
      assert longer[i] == group[i];
    }
    if !codec.valid(line) {
      assert longer[|group|] == line;
    }
  }

  /** Up to the first blank line, through it, and on. */
  lemma TakeEvent(codec: Codec, p: Progress, lines: seq<Bytes>, n: nat)
    requires n < |lines|
    ensures TakeAll(codec, p, lines)
         == TakeAll(codec, Take(codec, TakeAll(codec, p, lines[..n]), lines[n]), lines[n + 1..])
  {
    assert lines == lines[..n] + lines[n..];
    TakeAllConcat(codec, p, lines[..n], lines[n..]);
    assert lines[n..][1..] == lines[n + 1..];
  }

  /** The blank line that ends a well-formed event. */
  lemma TakeBlank(codec: Codec, p: Progress, line: Bytes)
    requires IsBlank(line) && !p.failed
    ensures var q := Take(codec, p, line);
      && q.failed == (!codec.valid(line) || codec.parse(p.data).Malformed?)
      && (q.failed ==> q.records == p.records)
      && var more := if codec.parse(p.data).Payment? then [codec.parse(p.data).record] else [];
      (!q.failed ==> q == Progress(p.records + more, [], false))
  {
  }

  /** Line by line, the decoder computes the meaning. */
  lemma {:induction false} TakeAllIsMeaning(codec: Codec, records: seq<PaymentRecord>, lines: seq<Bytes>)
    ensures var p := TakeAll(codec, Progress(records, [], false), lines);
      var meaning := MeaningOf(codec, lines);
      p.records == records + meaning.records && p.failed == meaning.failed
    decreases |lines|, 0
  {
    var n := FirstBlank(lines);
    var start := Progress(records, [], false);
    var p := TakeAll(codec, start, lines[..n]);
    TakeGroup(codec, records, lines[..n]);
    if n == |lines| {
      assert lines[..n] == lines;
    } else {
      TakeEvent(codec, start, lines, n);
      if p.failed {
        FailedStays(codec, p, lines[n + 1..]);
      } else {
        TakeBlank(codec, p, lines[n]);
        TakeRest(codec, p, lines[n], lines[n + 1..]);
      }
    }
  }

  lemma {:induction false} TakeRest(codec: Codec, p: Progress, line: Bytes, rest: seq<Bytes>)
    requires IsBlank(line) && !p.failed
    ensures var q := TakeAll(codec, Take(codec, p, line), rest);
      var meaning := MeaningOf(codec, rest);
      var parsed := codec.parse(p.data);
      if !codec.valid(line) || parsed.Malformed? then q.records == p.records && q.failed
      else (
        && q.failed == meaning.failed
        && q.records == p.records + if parsed.Payment? then [parsed.record] + meaning.records else meaning.records)
    decreases |rest|, 1
  {
    TakeBlank(codec, p, line);
    var q := Take(codec, p, line);
    if q.failed {
      FailedStays(codec, q, rest);
    } else {
      TakeAllIsMeaning(codec, q.records, rest);
    }
  }

  /** Records already out are never taken back. */
  lemma {:induction false} RecordsGrow(codec: Codec, p: Progress, lines: seq<Bytes>)
    ensures p.records <= TakeAll(codec, p, lines).records
    decreases |lines|
  {
    if lines != [] {
      RecordsGrow(codec, Take(codec, p, lines[0]), lines[1..]);
    }
  }

  /** Lines after the last blank line yield nothing, however many they are. */
  lemma UnfinishedYieldsNothing(codec: Codec, lines: seq<Bytes>, tail: seq<Bytes>)
    requires forall i :: 0 <= i < |tail| ==> !IsBlank(tail[i])
    ensures MeaningOf(codec, lines + tail).records == MeaningOf(codec, lines).records
  {
    var start := Progress([], [], false);
    TakeAllConcat(codec, start, lines, tail);
    TakeAllIsMeaning(codec, [], lines);
    TakeAllIsMeaning(codec, [], lines + tail);
    NoBlankNoRecord(codec, TakeAll(codec, start, lines), tail);
    var whole, part := MeaningOf(codec, lines + tail).records, MeaningOf(codec, lines).records;
    assert [] + whole == whole && [] + part == part;
  }

  lemma {:induction false} NoBlankNoRecord(codec: Codec, p: Progress, tail: seq<Bytes>)
    requires forall i :: 0 <= i < |tail| ==> !IsBlank(tail[i])
    ensures TakeAll(codec, p, tail).records == p.records
    decreases |tail|
  {
    if tail != [] {
      NoBlankNoRecord(codec, Take(codec, p, tail[0]), tail[1..]);
    }
  }
}
