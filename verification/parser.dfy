/** parser.go, lines 243-403: `read`. The outer loop feeds every segment,
    trimmed of spaces and tabs at both ends, to the `NEW_LINE` loop; the
    segment that comes with an error is fed only when the error is `io.EOF`,
    and only then is the leftover record sent as well. The statistics are
    those of the records sent, in order, with the parser's broken count added. */
module Parser {
  import opened ByteStrings
  import opened GoStrings
  import opened Segments
  import opened Statistics
  import opened StatisticLemmas
  import opened Scanner
  import opened Tokenizer

  /** What `read` gets from its reader: the segments returned without error,
      then the segment returned together with the error that ends the stream. */
  datatype Input = Input(lines: seq<Bytes>, tail: Bytes, end: ReadError)

  /** The input a reader gives for `data` when nothing goes wrong: the
      segments up to each `>`, then the rest with `io.EOF`. */
  function InputOf(data: Bytes): (r: Input)
    ensures Concat(r.lines) + r.tail == data && r.end == EOF
    ensures AllDelimited(r.lines, Gt) && Gt !in r.tail
  {
    var p := SplitAfter(data, Gt);
    Input(p.0, p.1, EOF)
  }

  /** The tokenizer before the statistics are taken: the records sent on
      `pushChan` in order, the parser's broken count and the error `read`
      returns; or a panic. */
  datatype Parse = Parsed(records: seq<House>, broken: nat, err: Option<ReadError>) | TokPanic

  /** The outer loop over the segments read without error. Segments that end
      with `>` never make it panic and never leave it inside an item's
      attributes. */
  function ScanLines(t: Tok, lines: seq<Bytes>): (r: LineResult)
    ensures r.Done? ==> t.pushed <= r.t.pushed && t.broken <= r.t.broken
    ensures Sound(t) && r.Done? ==> Sound(r.t)
    ensures AllDelimited(lines, Gt) && t.state != WaitName ==> r.Done? && r.t.state != WaitName
    decreases |lines|
  {
    if lines == [] then Done(t)
    else
      var line := TrimFunc(lines[0]);
      assert Delimited(lines[0], Gt) ==> Closed(line) by {
        if Delimited(lines[0], Gt) {
          CutFuncIsSpaceOrTab(Gt);
          TrimFuncKeepsLast(lines[0]);
        }
      }
      match ScanLine(t, line)
      case LinePanic => LinePanic
      case Done(u) => ScanLines(u, lines[1..])
  }

  lemma SoundRecords(u: Tok)
    requires Sound(u)
    ensures AllClean(u.pushed + [u.house])
  {
  }

  lemma StartSound()
    ensures Sound(Start)
  {
  }

  /** Scanning two runs of segments one after the other is scanning their
      concatenation. */
  lemma {:induction false} ScanLinesConcat(t: Tok, a: seq<Bytes>, b: seq<Bytes>)
    ensures ScanLines(t, a + b)
         == match ScanLines(t, a)
            case LinePanic => LinePanic
            case Done(u) => ScanLines(u, b)
    decreases |a|
  {
    if a == [] {
      assert a + b == b;
    } else {
      assert (a + b)[0] == a[0] && (a + b)[1..] == a[1..] + b;
      match ScanLine(t, TrimFunc(a[0]))
      case LinePanic =>
      case Done(u) => ScanLinesConcat(u, a[1..], b);
    }
  }

  /** The segments `read` feeds to the `NEW_LINE` loop: every segment read
      without error, and the last one as well when the stream ended with
      `io.EOF`. */
  function Fed(input: Input): seq<Bytes> {
    if input.end == EOF then input.lines + [input.tail] else input.lines
  }

  /** `read` up to the statistics. The records sent are those the loop sends
      over the segments fed to it, followed, at `io.EOF` only, by the one
      record left under construction; the loop's panic is `read`'s. */
  function Tokenize(input: Input): (r: Parse)
    ensures r.Parsed? ==> (r.err == None <==> input.end == EOF)
    ensures r.Parsed? ==> AllClean(r.records)
    ensures AllDelimited(input.lines, Gt) && r.TokPanic? ==> input.end == EOF
    ensures r.TokPanic? <==> ScanLines(Start, Fed(input)).LinePanic?
    ensures ScanLines(Start, Fed(input)).Done? && input.end == EOF ==>
      var t := ScanLines(Start, Fed(input)).t;
      r == Parsed(t.pushed + [t.house], t.broken, None)
    ensures ScanLines(Start, Fed(input)).Done? && input.end != EOF ==>
      var t := ScanLines(Start, Fed(input)).t;
      r == Parsed(t.pushed, t.broken, Some(input.end))
  {
    StartSound();
    ScanLinesConcat(Start, input.lines, [input.tail]);
    match ScanLines(Start, input.lines)
    case LinePanic => TokPanic
    case Done(t) =>
      if input.end == EOF then
        match ScanLine(t, TrimFunc(input.tail))
        case LinePanic => TokPanic
        case Done(u) => SoundRecords(u); Parsed(u.pushed + [u.house], u.broken, None)
      else
        Parsed(t.pushed, t.broken, Some(input.end))
  }

  /** Adding to the broken count leaves the aggregator's invariants alone. */
  lemma MergeBrokenKeeps(s: Statistic, broken: nat)
    requires Valid(s) && HistogramAgrees(s)
    ensures Valid(s.(broken := s.broken + broken)) && HistogramAgrees(s.(broken := s.broken + broken))
  {
    var r := s.(broken := s.broken + broken);
    forall c ensures Total(Hist(r, c)) == |CityAddresses(r, c)| {
      assert Hist(r, c) == Hist(s, c);
      assert CityAddresses(r, c) == CityAddresses(s, c);
    }
  }

  /** The outcome of `read`: the statistics and the returned error, or a panic. */
  datatype Result = Finished(stat: Statistic, err: Option<ReadError>) | ReadPanic

  /** `read`: the statistics of the records sent, with the parser's broken
      count merged in. They keep the aggregator's invariants, their broken
      count is the tokenizer's, and they count every complete record sent. */
  function Read(input: Input): (r: Result)
    ensures r.ReadPanic? <==> Tokenize(input).TokPanic?
    ensures r.Finished? ==> Valid(r.stat) && HistogramAgrees(r.stat)
    ensures r.Finished? ==>
      && r.err == Tokenize(input).err
      && r.stat.broken == Tokenize(input).broken
      && r.stat.items == CountComplete(Tokenize(input).records)
  {
    match Tokenize(input)
    case TokPanic => ReadPanic
    case Parsed(records, broken, err) =>
      var s := AddAll(Init(), records);
      AddAllPreserves(Init(), records);
      MergeBrokenKeeps(s, broken);
      Finished(s.(broken := s.broken + broken), err)
  }
}
