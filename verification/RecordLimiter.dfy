/** The streaming limit on CSV records: a reader that passes bytes through and stops when one logical
    record exceeds 20 MiB before its line ending.
    Well-formed input is the file format of section 2 of RFC 4180, with LF accepted as a line ending. */
module RecordLimiter {

  newtype Byte = x: int | 0 <= x < 256

  const MAX_RECORD_BYTES: nat := 20971520
  const QUOTE: Byte := 34
  const COMMA: Byte := 44
  const CR: Byte := 13
  const LF: Byte := 10

  // ---- the reader's state and one byte of progress ----

  datatype Scan = Scan(bytes: nat, inQuotes: bool, quotePending: bool, fieldStart: bool)

  const START := Scan(0, false, false, true)

  predicate Closed(s: Scan) { !s.inQuotes || s.quotePending }

  function Consume(s: Scan, b: Byte): Scan {
    if !s.inQuotes then
      if s.fieldStart && b == QUOTE then s.(inQuotes := true, fieldStart := false)
      else if b == COMMA then s.(fieldStart := true)
      else if b != CR && b != LF then s.(fieldStart := false)
      else s
    else if !s.quotePending then s.(quotePending := b == QUOTE)
    else if b == QUOTE then s.(quotePending := false)
    else s.(inQuotes := false, quotePending := false, fieldStart := if b == COMMA then true else s.fieldStart)
  }

  function Step(s: Scan, b: Byte): Scan {
    var next := Consume(s.(bytes := s.bytes + 1), b);
    if !next.inQuotes && b == LF then next.(bytes := 0, fieldStart := true) else next
  }

  function Scanned(s: Scan, text: seq<Byte>): Scan
    decreases |text|
  {
    if text == [] then s else Scanned(Step(s, text[0]), text[1..])
  }

  /** A full record is refused unless a line ending comes next. */
  predicate Refuses(s: Scan, rest: seq<Byte>) {
    && s.bytes >= MAX_RECORD_BYTES && rest != []
    && !(Closed(s) && (rest[0] == LF || (rest[0] == CR && |rest| >= 2 && rest[1] == LF)))
  }

  datatype Ending = Eof | TooLarge

  /** How many bytes of the stream are passed on, and how it ends. */
  datatype Passed = Passed(count: nat, ending: Ending)

  function Run(s: Scan, rest: seq<Byte>): (r: Passed)
    ensures r.count <= |rest|
    ensures r.ending.Eof? ==> r.count == |rest|
    decreases |rest|
  {
    if rest == [] then Passed(0, Eof)
    else if Refuses(s, rest) then Passed(0, TooLarge)
    else
      var tail := Run(Step(s, rest[0]), rest[1..]);
      Passed(tail.count + 1, tail.ending)
  }

  lemma {:induction false} ScannedAppend(s: Scan, a: seq<Byte>, b: seq<Byte>)
    ensures Scanned(s, a + b) == Scanned(Scanned(s, a), b)
    decreases |a|
  {
    if a == [] {
      assert a + b == b;
    } else {
      assert (a + b)[1..] == a[1..] + b;
      ScannedAppend(Step(s, a[0]), a[1..], b);
    }
  }

  /** Reading on from where a first read stopped gives what one long read would have given. */
  lemma {:induction false} RunSplits(s: Scan, rest: seq<Byte>, n: nat)
    requires n <= Run(s, rest).count
    ensures Run(Scanned(s, rest[..n]), rest[n..]) == Passed(Run(s, rest).count - n, Run(s, rest).ending)
    decreases n
  {
    if n == 0 {
      assert rest[0..] == rest;
    } else {
      var a := rest[..n];
      RunSplits(Step(s, rest[0]), rest[1..], n - 1);
      assert a[0] == rest[0] && a[1..] == rest[1..][..n - 1];
      assert rest[1..][n - 1..] == rest[n..];
      assert Scanned(s, a) == Scanned(Step(s, a[0]), a[1..]);
    }
  }

  /** The next byte of a stream of which n have been read: passed on, or the end of the run. */
  lemma {:induction false} RunNext(s: Scan, rest: seq<Byte>, n: nat)
    requires n <= Run(s, rest).count
    ensures var at := Scanned(s, rest[..n]);
      if n == |rest| then Run(s, rest) == Passed(n, Eof)
      else if Refuses(at, rest[n..]) then Run(s, rest) == Passed(n, TooLarge)
      else n < Run(s, rest).count && Scanned(s, rest[..n + 1]) == Step(at, rest[n])
  {
    RunSplits(s, rest, n);
    if n < |rest| {
      assert rest[n..] != [];
      assert rest[..n + 1] == rest[..n] + [rest[n]];
      ScannedAppend(s, rest[..n], [rest[n]]);
      ScannedOne(Scanned(s, rest[..n]), rest[n]);
    }
  }

  // ---- the reader ----

  datatype ReadError = NoError | EndOfFile | RecordTooLarge

  class Reader {
    /** What the buffered source has not delivered yet. */
    var source: seq<Byte>
    var bytes: nat
    var inQuotes: bool
    var quotePending: bool
    var fieldStart: bool

    ghost function State(): Scan
      reads this
    {
      Scan(bytes, inQuotes, quotePending, fieldStart)
    }

    constructor (source: seq<Byte>)
      ensures State() == START && this.source == source
    {
      this.source := source;
      bytes, inQuotes, quotePending, fieldStart := 0, false, false, true;
    }

    method ConsumeByte(value: Byte)
      modifies this`inQuotes, this`quotePending, this`fieldStart
      ensures State() == Consume(old(State()), value)
    {
      if !inQuotes {
        if fieldStart && value == QUOTE {
          inQuotes := true;
          fieldStart := false;
        } else if value == COMMA {
          fieldStart := true;
        } else if value != CR && value != LF {
          fieldStart := false;
        }
        return;
      }
      if !quotePending {
        if value == QUOTE { quotePending := true; }
        return;
      }
      if value == QUOTE {
        quotePending := false;
        return;
      }
      inQuotes := false;
      quotePending := false;
      if value == COMMA { fieldStart := true; }
    }

    /** One byte: the end of the source, the refusal of a full record, or the byte itself. */
    method Next() returns (value: Byte, error: ReadError)
      modifies this
      ensures error.EndOfFile? <==> old(source) == []
      ensures error.RecordTooLarge? <==> Refuses(old(State()), old(source))
      ensures error.NoError? ==> value == old(source)[0] && source == old(source)[1..] && State() == Step(old(State()), value)
      ensures !error.NoError? ==> source == old(source) && State() == old(State())
    {
      value := 0;
      if bytes >= MAX_RECORD_BYTES {
        if source == [] { return value, EndOfFile; }
        var closed := !inQuotes || quotePending;
        if !closed || (source[0] != LF && source[0] != CR) { return value, RecordTooLarge; }
        if source[0] == CR {
          if |source| < 2 || source[1] != LF { return value, RecordTooLarge; }
        }
      }
      if source == [] { return value, EndOfFile; }
      value := source[0];
      source := source[1..];
      bytes := bytes + 1;
      ConsumeByte(value);
      if !inQuotes && value == LF {
        bytes := 0;
        fieldStart := true;
      }
      return value, NoError;
    }

    /** One Read of any size: the next bytes of the source, up to where Run stops, and the error only
        when the buffer could not be filled. */
    method Read(p: array<Byte>) returns (n: nat, error: ReadError)
      modifies this, p
      ensures n <= p.Length && n <= |old(source)| && p[..n] == old(source)[..n] && p[n..] == old(p[n..])
      ensures source == old(source)[n..] && State() == Scanned(old(State()), old(source)[..n])
      ensures var all := Run(old(State()), old(source));
        && n == (if p.Length <= all.count then p.Length else all.count)
        && error == (if p.Length <= all.count then NoError else if all.ending.Eof? then EndOfFile else RecordTooLarge)
    {
      ghost var before, stream, buffer := State(), source, p[..];
      n := 0;
      while n < p.Length
        invariant n <= p.Length && n <= |stream| && n <= Run(before, stream).count
        invariant source == stream[n..] && State() == Scanned(before, stream[..n])
        invariant forall i :: 0 <= i < n ==> p[i] == stream[i]
        invariant forall i :: n <= i < p.Length ==> p[i] == buffer[i]
      {
        RunNext(before, stream, n);
        var value;
        value, error := Next();
        if error != NoError { return; }
        assert stream[n..][0] == stream[n] && stream[n..][1..] == stream[n + 1..];
        p[n] := value;
        n := n + 1;
      }
      return n, NoError;
    }
  }

  lemma {:induction false} ScannedOne(s: Scan, b: Byte)
    ensures Scanned(s, [b]) == Step(s, b)
  {
    assert [b][1..] == [];
  }

  function Least(a: nat, b: nat): nat { if a <= b then a else b }

  function Sum(sizes: seq<nat>): nat { if sizes == [] then 0 else sizes[0] + Sum(sizes[1..]) }

  /** All the bytes a sequence of Reads of these sizes delivers. */
  function Deliver(s: Scan, rest: seq<Byte>, sizes: seq<nat>): seq<Byte>
    decreases |sizes|
  {
    if sizes == [] then []
    else
      var n := Least(sizes[0], Run(s, rest).count);
      rest[..n] + Deliver(Scanned(s, rest[..n]), rest[n..], sizes[1..])
  }

  /** However the reads are sized, what they deliver is the same prefix of the stream, as long as their
      sizes ask for, up to the end of the run. */
  lemma {:induction false} AnySizesDeliverThePrefix(s: Scan, rest: seq<Byte>, sizes: seq<nat>)
    ensures Deliver(s, rest, sizes) == rest[..Least(Sum(sizes), Run(s, rest).count)]
    decreases |sizes|
  {
    if sizes != [] {
      var n := Least(sizes[0], Run(s, rest).count);
      RunSplits(s, rest, n);
      AnySizesDeliverThePrefix(Scanned(s, rest[..n]), rest[n..], sizes[1..]);
      var m := Least(Sum(sizes[1..]), Run(s, rest).count - n);
      assert rest[..n] + rest[n..][..m] == rest[..n + m];
    }
  }

  // ---- the file format ----

  datatype Field = Bare(text: seq<Byte>) | Quoted(text: seq<Byte>)

  predicate FieldValid(f: Field) {
    f.Bare? ==> forall i :: 0 <= i < |f.text| ==> f.text[i] != QUOTE && f.text[i] != COMMA && f.text[i] != CR && f.text[i] != LF
  }

  function Doubled(text: seq<Byte>): seq<Byte> {
    if text == [] then [] else (if text[0] == QUOTE then [QUOTE, QUOTE] else [text[0]]) + Doubled(text[1..])
  }

  function FieldText(f: Field): seq<Byte> {
    if f.Bare? then f.text else [QUOTE] + Doubled(f.text) + [QUOTE]
  }

  /** A record without its line ending. */
  function Body(fields: seq<Field>): seq<Byte>
    requires fields != []
  {
    if |fields| == 1 then FieldText(fields[0]) else FieldText(fields[0]) + [COMMA] + Body(fields[1..])
  }

  datatype LineEnding = CrLf | JustLf

  function EndText(e: LineEnding): seq<Byte> { if e.CrLf? then [CR, LF] else [LF] }

  datatype Record = Record(fields: seq<Field>, ending: LineEnding)

  predicate FieldsValid(fields: seq<Field>) { fields != [] && forall f :: f in fields ==> FieldValid(f) }

  predicate RecordsValid(records: seq<Record>) { forall r :: r in records ==> FieldsValid(r.fields) }

  /** The records with their endings, then the last record if the file does not end with one. */
  function Text(records: seq<Record>, last: seq<Field>): seq<Byte>
    requires RecordsValid(records)
  {
    if records == [] then (if last == [] then [] else Body(last))
    else Body(records[0].fields) + EndText(records[0].ending) + Text(records[1..], last)
  }

  // ---- a text with no record end in it ----

  predicate IsBreak(b: Byte) { b == CR || b == LF }

  /** Scanning `text` meets no line break outside quotes. */
  predicate Inside(s: Scan, text: seq<Byte>)
    decreases |text|
  {
    text == [] || (!(Closed(s) && IsBreak(text[0])) && Inside(Step(s, text[0]), text[1..]))
  }

  lemma {:induction false} InsideAppend(s: Scan, a: seq<Byte>, b: seq<Byte>)
    requires Inside(s, a) && Inside(Scanned(s, a), b)
    ensures Inside(s, a + b)
    decreases |a|
  {
    if a == [] {
      assert a + b == b;
    } else {
      assert (a + b)[1..] == a[1..] + b;
      InsideAppend(Step(s, a[0]), a[1..], b);
    }
  }

  /** Inside a record the count is the number of bytes since its start. */
  lemma {:induction false} InsideCounts(s: Scan, text: seq<Byte>)
    requires Inside(s, text)
    ensures Scanned(s, text).bytes == s.bytes + |text|
    decreases |text|
  {
    if text != [] { InsideCounts(Step(s, text[0]), text[1..]); }
  }

  /** Inside a record the reader stops exactly when the count reaches the limit with bytes to come. */
  lemma {:induction false} InsideRun(s: Scan, text: seq<Byte>, rest: seq<Byte>)
    requires Inside(s, text) && s.bytes <= MAX_RECORD_BYTES
    ensures Run(s, text + rest) ==
      if s.bytes + |text| > MAX_RECORD_BYTES then Passed(MAX_RECORD_BYTES - s.bytes, TooLarge)
      else Passed(|text| + Run(Scanned(s, text), rest).count, Run(Scanned(s, text), rest).ending)
    decreases |text|
  {
    if text == [] {
      assert text + rest == rest;
    } else {
      assert (text + rest)[1..] == text[1..] + rest;
      if s.bytes < MAX_RECORD_BYTES { InsideRun(Step(s, text[0]), text[1..], rest); }
    }
  }

  /** At the start of a field, with `b` bytes of the record read. */
  function AtField(b: nat): Scan { Scan(b, false, false, true) }

  lemma {:induction false} BareInside(s: Scan, text: seq<Byte>)
    requires FieldValid(Bare(text)) && !s.inQuotes && !s.quotePending
    ensures Inside(s, text) && !Scanned(s, text).inQuotes && !Scanned(s, text).quotePending
    decreases |text|
  {
    if text != [] {
      assert FieldValid(Bare(text[1..]));
      BareInside(Step(s, text[0]), text[1..]);
    }
  }

  lemma {:induction false} DoubledInside(s: Scan, text: seq<Byte>)
    requires s.inQuotes && !s.quotePending
    ensures Inside(s, Doubled(text)) && Scanned(s, Doubled(text)) == s.(bytes := s.bytes + |Doubled(text)|)
    decreases |text|
  {
    if text != [] {
      var head := if text[0] == QUOTE then [QUOTE, QUOTE] else [text[0]];
      var mid := s.(bytes := s.bytes + |head|);
      if text[0] == QUOTE {
        assert head[1..] == [QUOTE] && head[1..][1..] == [];
        assert Step(Step(s, QUOTE), QUOTE) == mid;
        ScannedOne(Step(s, QUOTE), QUOTE);
        assert Inside(Step(s, QUOTE), [QUOTE]);
      } else {
        assert head[1..] == [];
        assert Step(s, text[0]) == mid;
        ScannedOne(s, text[0]);
      }
      assert Inside(s, head) && Scanned(s, head) == mid;
      DoubledInside(mid, text[1..]);
      InsideAppend(s, head, Doubled(text[1..]));
      ScannedAppend(s, head, Doubled(text[1..]));
    }
  }

  lemma {:induction false} QuotedInside(b: nat, text: seq<Byte>)
    ensures Inside(AtField(b), FieldText(Quoted(text)))
    ensures Scanned(AtField(b), FieldText(Quoted(text))) == Scan(b + |FieldText(Quoted(text))|, true, true, false)
  {
    var s, open := AtField(b), Scan(b + 1, true, false, false);
    ScannedOne(s, QUOTE);
    assert Inside(s, [QUOTE]);
    DoubledInside(open, text);
    InsideAppend(s, [QUOTE], Doubled(text));
    ScannedAppend(s, [QUOTE], Doubled(text));
    var full := open.(bytes := open.bytes + |Doubled(text)|);
    ScannedOne(full, QUOTE);
    assert Inside(full, [QUOTE]);
    InsideAppend(s, [QUOTE] + Doubled(text), [QUOTE]);
    ScannedAppend(s, [QUOTE] + Doubled(text), [QUOTE]);
  }

  /** After a field the record is closed, and a comma starts the next one. */
  lemma {:induction false} FieldInside(b: nat, f: Field)
    requires FieldValid(f)
    ensures Inside(AtField(b), FieldText(f)) && Closed(Scanned(AtField(b), FieldText(f)))
    ensures Scanned(AtField(b), FieldText(f)).quotePending ==> Scanned(AtField(b), FieldText(f)).inQuotes
    ensures Step(Scanned(AtField(b), FieldText(f)), COMMA) == AtField(b + |FieldText(f)| + 1)
  {
    if f.Bare? { BareInside(AtField(b), f.text); } else { QuotedInside(b, f.text); }
    InsideCounts(AtField(b), FieldText(f));
  }

  lemma {:induction false} BodyInside(b: nat, fields: seq<Field>)
    requires FieldsValid(fields)
    ensures Inside(AtField(b), Body(fields)) && Closed(Scanned(AtField(b), Body(fields)))
    ensures Scanned(AtField(b), Body(fields)).quotePending ==> Scanned(AtField(b), Body(fields)).inQuotes
    decreases |fields|
  {
    FieldInside(b, fields[0]);
    if |fields| > 1 {
      var first, s := FieldText(fields[0]), AtField(b);
      var after := Scanned(s, first);
      ScannedOne(after, COMMA);
      assert Inside(after, [COMMA]);
      InsideAppend(s, first, [COMMA]);
      ScannedAppend(s, first, [COMMA]);
      BodyInside(b + |first| + 1, fields[1..]);
      InsideAppend(s, first + [COMMA], Body(fields[1..]));
      ScannedAppend(s, first + [COMMA], Body(fields[1..]));
    }
  }

  /** A line ending after a record of allowed size is passed on and brings the reader back to its start. */
  lemma {:induction false} EndingResets(s: Scan, e: LineEnding, rest: seq<Byte>)
    requires Closed(s) && s.bytes <= MAX_RECORD_BYTES && (s.quotePending ==> s.inQuotes)
    ensures Scanned(s, EndText(e)) == START
    ensures Run(s, EndText(e) + rest) == Passed(|EndText(e)| + Run(START, rest).count, Run(START, rest).ending)
  {
    if e.CrLf? {
      var t := [CR, LF] + rest;
      assert t[1..] == [LF] + rest && t[1..][1..] == rest;
      assert [CR, LF][1..] == [LF] && [LF][1..] == [];
      assert Step(Step(s, CR), LF) == START;
      ScannedOne(Step(s, CR), LF);
      assert !Refuses(s, t) && !Refuses(Step(s, CR), [LF] + rest);
      assert Run(Step(s, CR), [LF] + rest) == Passed(1 + Run(START, rest).count, Run(START, rest).ending);
    } else {
      assert ([LF] + rest)[1..] == rest;
      ScannedOne(s, LF);
    }
  }

  // ---- the limit is exact ----

  predicate Oversize(fields: seq<Field>)
    requires fields != []
  {
    |Body(fields)| > 20971520
  }

  predicate AnyOversize(records: seq<Record>, last: seq<Field>)
    requires RecordsValid(records)
  {
    (exists i :: 0 <= i < |records| && Oversize(records[i].fields)) || (last != [] && Oversize(last))
  }

  /** The bytes before the first oversize record, and the first 20 MiB of it. */
  function Allowed(records: seq<Record>, last: seq<Field>): nat
    requires RecordsValid(records)
  {
    if records == [] then (if last == [] then 0 else if Oversize(last) then 20971520 else |Body(last)|)
    else if Oversize(records[0].fields) then 20971520
    else |Body(records[0].fields)| + |EndText(records[0].ending)| + Allowed(records[1..], last)
  }

  /** For every well-formed file the reader fails exactly when some record exceeds 20 MiB before its
      line ending; it passes on everything before that record and 20 MiB of it, and otherwise the whole file. */
  lemma {:induction false} LimitIsExact(records: seq<Record>, last: seq<Field>)
    requires RecordsValid(records) && (last != [] ==> FieldsValid(last))
    ensures Run(START, Text(records, last)) == Passed(Allowed(records, last), if AnyOversize(records, last) then TooLarge else Eof)
    decreases |records|
  {
    if records == [] {
      if last != [] {
        BodyInside(0, last);
        InsideRun(START, Body(last), []);
        assert Body(last) + [] == Body(last);
      }
    } else {
      var body, end, rest := Body(records[0].fields), EndText(records[0].ending), Text(records[1..], last);
      assert records[0] in records;
      BodyInside(0, records[0].fields);
      InsideRun(START, body, end + rest);
      assert body + (end + rest) == body + end + rest;
      if !Oversize(records[0].fields) {
        InsideCounts(START, body);
        EndingResets(Scanned(START, body), records[0].ending, rest);
        LimitIsExact(records[1..], last);
        TailOversize(records, last);
      }
    }
  }

  lemma {:induction false} TailOversize(records: seq<Record>, last: seq<Field>)
    requires records != [] && RecordsValid(records) && !Oversize(records[0].fields)
    ensures AnyOversize(records, last) <==> AnyOversize(records[1..], last)
  {
    forall i | 0 <= i < |records| && Oversize(records[i].fields)
      ensures exists j :: 0 <= j < |records[1..]| && Oversize(records[1..][j].fields)
    {
      assert records[1..][i - 1] == records[i];
    }
  }

  /** The count restarts at every record end and nowhere else: after whole records the reader is in its
      first state, and after any first part of a record it has counted exactly that part. */
  lemma {:induction false} CountsEachRecord(fields: seq<Field>, e: LineEnding, n: nat)
    requires FieldsValid(fields) && n <= |Body(fields)| <= MAX_RECORD_BYTES
    ensures Scanned(START, Body(fields)[..n]).bytes == n
    ensures Scanned(START, Body(fields) + EndText(e)) == START
  {
    var body := Body(fields);
    BodyInside(0, fields);
    assert body == body[..n] + body[n..];
    PrefixInside(START, body[..n], body[n..]);
    InsideCounts(START, body[..n]);
    InsideCounts(START, body);
    ScannedAppend(START, body, EndText(e));
    EndingResets(Scanned(START, body), e, []);
  }

  lemma {:induction false} PrefixInside(s: Scan, a: seq<Byte>, b: seq<Byte>)
    requires Inside(s, a + b)
    ensures Inside(s, a)
    decreases |a|
  {
    if a != [] {
      assert (a + b)[1..] == a[1..] + b;
      PrefixInside(Step(s, a[0]), a[1..], b);
    }
  }
}
