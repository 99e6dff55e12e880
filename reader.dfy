/** The generated reader function: its parameter checks, the byte range a
    worker reads, the mapping from header columns to schema fields, and the
    row loop that decodes each row and hands kept records to the output. */
module Reader {
  import opened Common
  import opened Values
  import opened Decode
  import opened Sink
  import Schema

  // ---------------------------------------------------------------------------
  // Parameters

  /** The entries of the params dictionary the model follows; None stands
      for a missing key. */
  datatype Params = Params(
    outputType: Option<string>,
    startByte: Option<real>,
    endByte: Option<real>,
    outputFile: Option<string>,
    outputHeaders: Option<bool>,
    splitFile: Option<Schema.PyObj>,
    partition: Option<string>,
    headers: Option<bool>,
    sampleRate: Option<Schema.PyObj>,
    firstRow: Option<Schema.PyObj>,
    lastRow: Option<Schema.PyObj>)

  /** The settings the row loop runs with. */
  datatype Config = Config(
    startByte: real,
    endByte: Option<real>,
    headers: bool,
    sampleRate: real,
    firstRow: Option<int>,
    lastRow: Option<int>,
    out: OutConfig)

  datatype ParamError =
    | SampleRateNotFloat
    | SampleRateOutOfRange
    | FirstRowNotInt
    | FirstRowNegative
    | LastRowNotInt
    | LastRowNotPositive
    | LastRowBeforeFirst

  /** float(value); None for the exception. Reading a float out of text is
      a parameter of the model. */
  function FloatOf(v: Schema.PyObj, parseFloat: string -> Option<real>): Option<real> {
    match v
    case PyInt(_, i) => Some(i as real)
    case PyFloat(_, x) => Some(x)
    case PyStr(_, s) => parseFloat(s)
    case PyOther(_) => None
  }

  /** split_file: a number above 10 is kept; one at most 10, or a value
      that cannot be compared with 10, means no splitting. */
  function SplitOf(v: Option<Schema.PyObj>): (r: Option<real>)
    ensures r.Some? ==> r.value > 10.0
    ensures r.Some? ==> v.Some? && (v.value.PyInt? || v.value.PyFloat?)
  {
    if v.None? then None
    else match v.value
      case PyInt(_, i) => if i <= 10 then None else Some(i as real)
      case PyFloat(_, x) => if x <= 10.0 then None else Some(x)
      case _ => None
  }

  /** output_type, upper-cased; PANDAS when absent. LIST, NUMPY, PANDAS and
      any other name collect the rows in memory. */
  function KindOf(outputType: Option<string>): OutputKind {
    if outputType.None? then ListOutput
    else if Upper(outputType.value) == "DELIM" then DelimOutput
    else if Upper(outputType.value) == "TFRECORDS" then RecordsOutput
    else ListOutput
  }

  /** The parameter block at the head of the reader, checks in source order. */
  function Configure(p: Params, parseFloat: string -> Option<real>): (r: Result<Config, ParamError>)
    ensures r.Ok? ==>
      0.0 < r.value.sampleRate <= 1.0
      && (r.value.firstRow.Some? <==> p.firstRow.Some?)
      && (r.value.lastRow.Some? <==> p.lastRow.Some?)
      && (r.value.firstRow.Some? ==> r.value.firstRow.value >= 0)
      && (r.value.lastRow.Some? ==> r.value.lastRow.value > 0)
      && (r.value.firstRow.Some? && r.value.lastRow.Some? ==> r.value.firstRow.value <= r.value.lastRow.value)
      && ValidConfig(r.value.out)
  {
    var rate := if p.sampleRate.None? then Some(1.0) else FloatOf(p.sampleRate.value, parseFloat);
    if rate.None? then Err(SampleRateNotFloat)
    else if rate.value <= 0.0 || rate.value > 1.0 then Err(SampleRateOutOfRange)
    else if p.firstRow.Some? && Schema.IntOf(p.firstRow.value).None? then Err(FirstRowNotInt)
    else
      var first := if p.firstRow.None? then None else Schema.IntOf(p.firstRow.value);
      if first.Some? && first.value < 0 then Err(FirstRowNegative)
      else if p.lastRow.Some? && Schema.IntOf(p.lastRow.value).None? then Err(LastRowNotInt)
      else
        var last := if p.lastRow.None? then None else Schema.IntOf(p.lastRow.value);
        if last.Some? && last.value <= 0 then Err(LastRowNotPositive)
        else if last.Some? && first.Some? && first.value > last.value then Err(LastRowBeforeFirst)
        else
          var out := OutConfig(KindOf(p.outputType), p.outputFile, SplitOf(p.splitFile), p.partition,
                               if p.outputHeaders.None? then true else p.outputHeaders.value);
          Ok(Config(if p.startByte.None? then 0.0 else p.startByte.value, p.endByte,
                    p.headers.Some? && p.headers.value, rate.value, first, last, out))
  }

  /** The parameters are accepted exactly when the sample rate reads as a
      float in (0, 1], first_row (if given) reads as an integer at least 0,
      and last_row (if given) reads as a positive integer not below
      first_row. */
  lemma ConfigureAccepts(p: Params, parseFloat: string -> Option<real>)
    ensures Configure(p, parseFloat).Ok? <==>
      (var rate := if p.sampleRate.None? then Some(1.0) else FloatOf(p.sampleRate.value, parseFloat);
       rate.Some? && 0.0 < rate.value <= 1.0)
      && (p.firstRow.Some? ==> Schema.IntOf(p.firstRow.value).Some? && Schema.IntOf(p.firstRow.value).value >= 0)
      && (p.lastRow.Some? ==> Schema.IntOf(p.lastRow.value).Some? && Schema.IntOf(p.lastRow.value).value > 0)
      && (p.firstRow.Some? && p.lastRow.Some? ==>
            Schema.IntOf(p.firstRow.value).Some? && Schema.IntOf(p.lastRow.value).Some?
            && Schema.IntOf(p.firstRow.value).value <= Schema.IntOf(p.lastRow.value).value)
  {
  }

  /** A split_file of at most 10 switches splitting off. */
  lemma SmallSplitIgnored(p: Params, parseFloat: string -> Option<real>, n: int)
    requires p.splitFile == Some(Schema.PyInt("int", n)) && n <= 10
    requires Configure(p, parseFloat).Ok?
    ensures Configure(p, parseFloat).value.out.splitFile.None?
  {
  }

  // ---------------------------------------------------------------------------
  // Snapping a byte range to line boundaries

  /** m.find(b"\n", from): the first newline at or after from, or -1. */
  function NewlineFrom(data: string, from: nat): (r: int)
    ensures r == -1 || (from <= r < |data| && data[r] == '\n')
    ensures r >= 0 ==> forall j :: from <= j < r ==> data[j] != '\n'
    ensures r == -1 ==> forall j :: from <= j < |data| ==> data[j] != '\n'
    decreases |data| - from
  {
    if from >= |data| then -1
    else if data[from] == '\n' then from
    else NewlineFrom(data, from + 1)
  }

  /** The start find() uses for int(x): a negative one counts from the end. */
  function FindStart(x: real, n: nat): nat {
    var t := Trunc(x);
    if t >= 0 then t else if n + t >= 0 then n + t else 0
  }

  /** A position where a line begins or the data ends. */
  predicate LineBoundary(data: string, b: nat) {
    b <= |data| && (b == 0 || b == |data| || data[b - 1] == '\n')
  }

  /** Where the line holding position from ends, its newline included:
      what readline consumes, and the first line start after from. */
  function NextStart(data: string, from: nat): (r: nat)
    ensures r <= |data| && LineBoundary(data, r)
    ensures from < |data| ==> from < r
    ensures r < |data| ==> from < r && data[r - 1] == '\n'
    ensures forall j :: from <= j < r - 1 ==> data[j] != '\n'
  {
    var k := NewlineFrom(data, from);
    if k < 0 then |data| else k + 1
  }

  /** offset as written: one past the first newline at or after start_byte,
      which is 0 when there is none. */
  function SnapStartAsWritten(data: string, start: real): (r: nat)
    ensures LineBoundary(data, r)
  {
    if start > 0.0 then NewlineFrom(data, FindStart(start, |data|)) + 1 else 0
  }

  /** end_byte as written: one past the first newline at or after it, and
      unchanged when there is none. */
  function SnapEndAsWritten(data: string, end: Option<real>): Option<real> {
    if end.None? then None
    else
      var e := NewlineFrom(data, FindStart(end.value, |data|)) + 1;
      if e == 0 then end else Some(e as real)
  }

  /** offset: the first line start after start_byte, or the end of the data. */
  function SnapStart(data: string, start: real): (r: nat)
    ensures LineBoundary(data, r)
  {
    if start > 0.0 then NextStart(data, FindStart(start, |data|)) else 0
  }

  /** end_byte: the first line start after it, or the end of the data. */
  function SnapEnd(data: string, end: Option<real>): (r: Option<real>)
    ensures r.Some? <==> end.Some?
    ensures r.Some? ==> exists b :: LineBoundary(data, b) && r.value == b as real
  {
    if end.None? then None else Some(NextStart(data, FindStart(end.value, |data|)) as real)
  }

  /** Wherever a newline follows the position, the corrected snapping is
      the one written. */
  lemma SnapAgrees(data: string, start: real, end: real)
    ensures NewlineFrom(data, FindStart(start, |data|)) >= 0 ==>
      SnapStartAsWritten(data, start) == SnapStart(data, start)
    ensures NewlineFrom(data, FindStart(end, |data|)) >= 0 ==>
      SnapEndAsWritten(data, Some(end)) == SnapEnd(data, Some(end))
  {
  }

  /** Both readings of a shared boundary land on the same line start. */
  lemma SharedBoundary(data: string, x: real)
    requires x > 0.0
    ensures SnapEnd(data, Some(x)) == Some(SnapStart(data, x) as real)
  {
  }

  /** The start of every line readline returns from pos on, up to the
      first line whose end lies past end. */
  function LineStarts(data: string, pos: nat, end: Option<real>): seq<nat>
    decreases |data| - pos
  {
    if pos >= |data| then []
    else
      var q := NextStart(data, pos);
      if end.Some? && q as real > end.value then [] else [pos] + LineStarts(data, q, end)
  }

  /** Reading up to a line boundary b and then reading on from b reads the
      same lines as reading on from the start: two readers whose ranges
      meet at b read adjacent, disjoint sets of lines. */
  lemma {:induction false} LineStartsSplit(data: string, a: nat, b: nat, end: Option<real>)
    requires a <= b && LineBoundary(data, b)
    requires end.Some? ==> b as real <= end.value
    ensures LineStarts(data, a, end) == LineStarts(data, a, Some(b as real)) + LineStarts(data, b, end)
    decreases |data| - a
  {
    if a < b {
      var q := NextStart(data, a);
      assert q <= b by {
        if b < |data| {
          assert data[b - 1] == '\n';
        }
      }
      LineStartsSplit(data, q, b, end);
    } else if b < |data| {
      assert NextStart(data, b) as real > b as real;
    }
  }

  /** Every line start read lies at a line boundary in [pos, |data|). */
  lemma {:induction false} LineStartsAreLines(data: string, pos: nat, end: Option<real>)
    requires LineBoundary(data, pos)
    ensures forall i :: 0 <= i < |LineStarts(data, pos, end)| ==>
      LineBoundary(data, LineStarts(data, pos, end)[i]) && pos <= LineStarts(data, pos, end)[i] < |data|
    decreases |data| - pos
  {
    if pos < |data| {
      LineStartsAreLines(data, NextStart(data, pos), end);
    }
  }

  /** The byte range as written, on "a\nbbbb" cut in two at byte 2: the
      second worker finds no newline after its start and rereads the first
      line, and neither reads the second. The corrected snapping reads both
      lines, once each. */
  lemma SnapAsWrittenLosesLine()
    ensures var data := "a\nbbbb";
      SnapStartAsWritten(data, 2.0) == 0
      && SnapEndAsWritten(data, Some(2.0)) == Some(2.0)
      && SnapEndAsWritten(data, Some(5.0)) == Some(5.0)
      && LineStarts(data, 0, SnapEndAsWritten(data, Some(2.0))) == [0]
      && LineStarts(data, SnapStartAsWritten(data, 2.0), SnapEndAsWritten(data, Some(5.0))) == [0]
      && LineStarts(data, 0, SnapEnd(data, Some(2.0))) == [0, 2]
      && LineStarts(data, SnapStart(data, 2.0), SnapEnd(data, Some(5.0))) == []
  {
    var data := "a\nbbbb";
    assert NewlineFrom(data, 2) == -1;
    assert NewlineFrom(data, 5) == -1;
    assert NextStart(data, 0) == 2;
    assert NextStart(data, 2) == 6;
    assert LineStarts(data, 2, Some(2.0)) == [];
    assert LineStarts(data, 2, Some(5.0)) == [];
    assert LineStarts(data, 6, Some(6.0)) == [];
    assert LineStarts(data, 2, Some(6.0)) == [2];
  }

  // ---------------------------------------------------------------------------
  // Header mapping

  /** The first position at or after from whose header is name. */
  function FirstMatch(headers: seq<string>, name: string, from: nat): (r: Option<nat>)
    ensures r.Some? ==> from <= r.value < |headers| && headers[r.value] == name
                        && forall j :: from <= j < r.value ==> headers[j] != name
    ensures r.None? ==> forall j :: from <= j < |headers| ==> headers[j] != name
    decreases |headers| - from
  {
    if from >= |headers| then None
    else if headers[from] == name then Some(from)
    else FirstMatch(headers, name, from + 1)
  }

  /** indices for the schema names from i on, after those found so far; the
      first name the header lacks ends the read. */
  function IndicesFrom(names: seq<string>, headers: seq<string>, i: nat, found: seq<nat>): (r: Result<seq<nat>, string>)
    requires i <= |names|
    ensures r.Ok? ==> |r.value| == |found| + |names| - i
    decreases |names| - i
  {
    if i == |names| then Ok(found)
    else match FirstMatch(headers, names[i], 0)
      case None => Err(names[i])
      case Some(j) => IndicesFrom(names, headers, i + 1, found + [j])
  }

  function IndicesOf(names: seq<string>, headers: seq<string>): Result<seq<nat>, string> {
    IndicesFrom(names, headers, 0, [])
  }

  lemma {:induction false} IndicesFromOk(names: seq<string>, headers: seq<string>, i: nat, found: seq<nat>)
    requires i <= |names|
    ensures IndicesFrom(names, headers, i, found).Ok? <==> forall k :: i <= k < |names| ==> names[k] in headers
    decreases |names| - i
  {
    if i < |names| {
      IndicesFromOk(names, headers, i + 1, found + [0]);
      if FirstMatch(headers, names[i], 0).Some? {
        IndicesFromOk(names, headers, i + 1, found + [FirstMatch(headers, names[i], 0).value]);
      }
    }
  }

  lemma {:induction false} IndicesFromFound(names: seq<string>, headers: seq<string>, i: nat, found: seq<nat>)
    requires i <= |names| && |found| == i
    requires IndicesFrom(names, headers, i, found).Ok?
    ensures var ix := IndicesFrom(names, headers, i, found).value;
      |ix| == |names| && ix[..i] == found
      && forall k :: i <= k < |names| ==> FirstMatch(headers, names[k], 0) == Some(ix[k])
    decreases |names| - i
  {
    if i < |names| {
      var m := FirstMatch(headers, names[i], 0).value;
      IndicesFromFound(names, headers, i + 1, found + [m]);
      var ix := IndicesFrom(names, headers, i, found).value;
      assert ix[..i + 1] == found + [m];
      assert ix[..i] == (found + [m])[..i];
    }
  }

  lemma {:induction false} IndicesFromMissing(names: seq<string>, headers: seq<string>, i: nat, found: seq<nat>)
    requires i <= |names|
    requires IndicesFrom(names, headers, i, found).Err?
    ensures var name := IndicesFrom(names, headers, i, found).error;
      exists k :: i <= k < |names| && names[k] == name && name !in headers
                  && forall l :: i <= l < k ==> names[l] in headers
    decreases |names| - i
  {
    var m := FirstMatch(headers, names[i], 0);
    if m.Some? {
      IndicesFromMissing(names, headers, i + 1, found + [m.value]);
    }
  }

  /** The mapping succeeds exactly when every schema name is a header;
      then each index is the first header equal to its name; otherwise the
      error names the first schema name missing from the header. */
  lemma IndicesOfMeans(names: seq<string>, headers: seq<string>)
    ensures var r := IndicesOf(names, headers);
      (r.Ok? <==> forall k :: 0 <= k < |names| ==> names[k] in headers)
      && (r.Ok? ==>
            |r.value| == |names|
            && forall k :: 0 <= k < |names| ==>
                 r.value[k] < |headers| && headers[r.value[k]] == names[k]
                 && forall j :: 0 <= j < r.value[k] ==> headers[j] != names[k])
      && (r.Err? ==>
            exists k :: 0 <= k < |names| && names[k] == r.error && r.error !in headers
                        && forall l :: 0 <= l < k ==> names[l] in headers)
  {
    IndicesFromOk(names, headers, 0, []);
    if IndicesOf(names, headers).Ok? {
      IndicesFromFound(names, headers, 0, []);
    } else {
      IndicesFromMissing(names, headers, 0, []);
    }
  }

  /** The header loop: for each schema name, scan the header for it. */
  method HeaderIndices(names: seq<string>, headers: seq<string>) returns (r: Result<seq<nat>, string>)
    ensures r == IndicesOf(names, headers)
  {
    var indices: seq<nat> := [];
    var i := 0;
    while i < |names|
      invariant 0 <= i <= |names| && |indices| == i
      invariant IndicesFrom(names, headers, i, indices) == IndicesOf(names, headers)
      decreases |names| - i
    {
      var j := 0;
      while j < |headers| && headers[j] != names[i]
        invariant 0 <= j <= |headers|
        invariant forall l :: 0 <= l < j ==> headers[l] != names[i]
        decreases |headers| - j
      {
        j := j + 1;
      }
      if j == |headers| {
        assert FirstMatch(headers, names[i], 0).None?;
        return Err(names[i]);
      }
      assert FirstMatch(headers, names[i], 0) == Some(j);
      indices := indices + [j];
      i := i + 1;
    }
    return Ok(indices);
  }

  /** The first line split at the delimiter, each piece stripped. */
  function HeaderNames(data: string, d: char): (r: seq<string>)
    ensures |r| == |Split(data[..NextStart(data, 0)], d)|
  {
    var pieces := Split(data[..NextStart(data, 0)], d);
    seq(|pieces|, i requires 0 <= i < |pieces| => Trim(pieces[i], None))
  }

  function Identity(n: nat): (r: seq<nat>)
    ensures |r| == n && forall i :: 0 <= i < n ==> r[i] == i
  {
    seq(n, i requires 0 <= i < n => i)
  }

  // ---------------------------------------------------------------------------
  // The input and one read

  /** A DELIM file is read line by line and split at the delimiter; a FLAT
      file is cut into records of lrecl characters, each field a fixed
      slice (its start minus one, its width). */
  datatype Layout =
    | Delimited(delim: char)
    | Fixed(lrecl: nat, spans: seq<(nat, nat)>)

  /** A user hook: what it returns, which becomes keepx, and fx_out as the
      hook leaves it, since a hook may add or change fields in place. */
  type Hook = Record -> (bool, Record)

  /** One call of the reader: the file, its layout and schema, the settings,
      and the pieces of the generated module that are not modelled here:
      float(), the random draw for each row, the user's hooks, str() of a
      value and the partition-name pattern. */
  datatype Job = Job(
    data: string,
    layout: Layout,
    cfg: Config,
    rules: seq<FieldRule>,
    removeChar: Option<char>,
    parseFloat: string -> Option<real>,
    draw: nat -> real,
    userFunction: Option<Hook>,
    userMethod: Option<Hook>,
    show: Value -> string,
    garbage: string -> bool)

  /** A FLAT record length of 0 would never move the offset. */
  predicate Advances(job: Job) {
    job.layout.Fixed? ==> job.layout.lrecl >= 1
  }

  datatype ReadError =
    | ColumnNotInFile(name: string)
    | Field(decodeError: DecodeError)
    | Output(outError: OutError)
    | NeverOpened     // the UnboundLocalError of closing a DELIM file no row opened
    | EmptyData       // the ValueError of mapping a file of no bytes into memory

  datatype Cursor = Cursor(pos: nat, tell: nat, indices: seq<nat>)

  /** Where the loop starts and how fields find their columns. A file of
      no bytes cannot be mapped into memory, which fails before anything
      else. A DELIM file with headers reads its first line as the header,
      then seeks to the offset when start_byte > 0; a FLAT file ignores
      headers and its read position stays 0, only the offset moving. */
  function Begin(job: Job): (r: Result<Cursor, ReadError>)
    ensures job.data == [] ==> r == Err(EmptyData)
    ensures r.Ok? ==> |r.value.indices| == |job.rules| && LineBoundary(job.data, r.value.pos)
    ensures job.data != [] && (job.layout.Fixed? || !job.cfg.headers) ==>
      r.Ok? && r.value.pos == SnapStartAsWritten(job.data, job.cfg.startByte) && r.value.indices == Identity(|job.rules|)
    ensures job.data != [] && job.layout.Delimited? && job.cfg.headers ==>
      (r.Ok? <==> forall k :: 0 <= k < |job.rules| ==> job.rules[k].name in HeaderNames(job.data, job.layout.delim))
  {
    var offset := SnapStartAsWritten(job.data, job.cfg.startByte);
    if job.data == [] then Err(EmptyData)
    else match job.layout
    case Fixed(_, _) => Ok(Cursor(offset, 0, Identity(|job.rules|)))
    case Delimited(d) =>
      if !job.cfg.headers then Ok(Cursor(offset, offset, Identity(|job.rules|)))
      else
        IndicesFromOk(Names(job.rules), HeaderNames(job.data, d), 0, []);
        match IndicesOf(Names(job.rules), HeaderNames(job.data, d))
        case Err(name) => Err(ColumnNotInFile(name))
        case Ok(ix) =>
          var p := if job.cfg.startByte > 0.0 then offset else NextStart(job.data, 0);
          Ok(Cursor(p, p, ix))
  }

  /** The fields of the FLAT record at pos. */
  function Slices(data: string, pos: nat, spans: seq<(nat, nat)>): (r: seq<string>)
    ensures |r| == |spans|
    ensures forall k :: 0 <= k < |spans| ==> r[k] == Slice(data, pos + spans[k].0, pos + spans[k].0 + spans[k].1)
  {
    seq(|spans|, k requires 0 <= k < |spans| => Slice(data, pos + spans[k].0, pos + spans[k].0 + spans[k].1))
  }

  /** What one turn of the loop reads: the columns, the next position and
      m.tell() afterwards; None when the loop breaks before counting a row. */
  datatype Raw = Raw(cols: seq<string>, pos: nat, tell: nat)

  function Next(job: Job, end: Option<real>, pos: nat, tell: nat): (r: Option<Raw>)
    requires Advances(job)
    ensures r.Some? ==> pos < |job.data| && pos < r.value.pos
  {
    if pos >= |job.data| then None
    else match job.layout
      case Delimited(d) =>
        var q := NextStart(job.data, pos);
        Some(Raw(Split(job.data[pos..q], d), q, q))
      case Fixed(lrecl, spans) =>
        if end.Some? && pos as real >= end.value then None
        else Some(Raw(Slices(job.data, pos, spans), pos + lrecl, tell))
  }

  /** keepx before decoding: not sampled out, and not before first_row. */
  predicate Eligible(cfg: Config, draw: nat -> real, number: nat) {
    !(cfg.sampleRate < 1.0 && draw(number) > cfg.sampleRate)
    && (cfg.firstRow.None? || number >= cfg.firstRow.value)
  }

  /** A row the loop counted and did not break on. */
  datatype RowEvent = RowEvent(number: nat, start: nat, cols: seq<string>, eligible: bool)

  /** The rows of the loop from pos on, n rows counted so far: row_number
      is bumped for every row read; the loop breaks once it passes
      last_row, or once the read position passes end_byte. */
  function Rows(job: Job, end: Option<real>, pos: nat, tell: nat, n: nat): (r: seq<RowEvent>)
    requires Advances(job)
    ensures |r| > 0 ==> pos + |r| <= |job.data|
    ensures forall i :: 0 <= i < |r| ==> pos <= r[i].start < |job.data|
    ensures forall i, j :: 0 <= i < j < |r| ==> r[i].start < r[j].start
    decreases |job.data| - pos
  {
    match Next(job, end, pos, tell)
    case None => []
    case Some(raw) =>
      if job.cfg.lastRow.Some? && n + 1 > job.cfg.lastRow.value then []
      else if end.Some? && raw.tell as real > end.value then []
      else [RowEvent(n + 1, pos, raw.cols, Eligible(job.cfg, job.draw, n + 1))]
           + Rows(job, end, raw.pos, raw.tell, n + 1)
  }

  /** The first step of the rows from pos: none when the loop breaks, else
      the row just read and the rows after it. */
  lemma RowsUnfold(job: Job, end: Option<real>, pos: nat, tell: nat, n: nat)
    requires Advances(job)
    ensures var r := Next(job, end, pos, tell);
      Rows(job, end, pos, tell, n)
      == if r.None? || (job.cfg.lastRow.Some? && n + 1 > job.cfg.lastRow.value)
            || (end.Some? && r.value.tell as real > end.value) then []
         else [RowEvent(n + 1, pos, r.value.cols, Eligible(job.cfg, job.draw, n + 1))]
              + Rows(job, end, r.value.pos, r.value.tell, n + 1)
  {
  }

  /** The user's hooks on a record: user_function first, then the user
      class's method on the record as the first left it, each consulted
      only while the row is still kept. */
  function Hooks(job: Job, rec: Record): (bool, Record) {
    var first := if job.userFunction.None? then (true, rec) else job.userFunction.value(rec);
    if !first.0 || job.userMethod.None? then first else job.userMethod.value(first.1)
  }

  /** One counted row: decoded when eligible, sent to the output when no
      field cleared keepx and the hooks accept it. */
  function Handle(job: Job, indices: seq<nat>, ev: RowEvent, st: OutState): (r: Result<OutState, ReadError>)
    requires |indices| == |job.rules|
    ensures !ev.eligible ==> r == Ok(st)
    ensures r.Err? ==> r.error.Field? || r.error.Output?
    ensures r.Ok? ==> st.files.Keys <= r.value.files.Keys
    ensures r.Ok? && job.cfg.out.kind != DelimOutput ==> r.value.files == st.files
  {
    if !ev.eligible then Ok(st)
    else match DecodeRow(job.rules, ev.cols, indices, job.removeChar, job.parseFloat)
      case Err(e) => Err(Field(e))
      case Ok(decoded) =>
        var hooked := Hooks(job, decoded.0);
        if !(decoded.1 && hooked.0) then Ok(st)
        else match Step(job.cfg.out, job.show, job.garbage, st, hooked.1)
          case Err(e) => Err(Output(e))
          case Ok(st') => Ok(st')
  }

  /** The output after a read, and the error that ended it if one did. */
  datatype Run = Run(out: OutState, error: Option<ReadError>)

  function Process(job: Job, indices: seq<nat>, events: seq<RowEvent>, st: OutState): (r: Run)
    requires |indices| == |job.rules|
    ensures r.error.Some? ==> r.error.value.Field? || r.error.value.Output?
    ensures st.files.Keys <= r.out.files.Keys
    ensures job.cfg.out.kind != DelimOutput ==> r.out.files == st.files
    decreases |events|
  {
    if events == [] then Run(st, None)
    else match Handle(job, indices, events[0], st)
      case Err(e) => Run(st, Some(e))
      case Ok(st') => Process(job, indices, events[1..], st')
  }

  /** After the loop: an unpartitioned DELIM read closes fo, which is
      bound only once a row has opened the output file. */
  function Finish(job: Job, run: Run): Run {
    if run.error.None? && job.cfg.out.kind == DelimOutput && job.cfg.out.partition.None? && run.out.files == map[]
    then Run(run.out, Some(NeverOpened))
    else run
  }

  /** A whole call of the reader after its parameters were accepted. */
  function ReadFile(job: Job): (r: Run)
    requires Advances(job)
    ensures job.data == [] ==> r == Run(Initial(), Some(EmptyData))
    ensures r.error.Some? && (r.error.value.ColumnNotInFile? || r.error.value.EmptyData?) ==> r.out == Initial()
    ensures r.error.None? && job.cfg.out.kind == DelimOutput && job.cfg.out.partition.None? ==> r.out.files != map[]
    ensures job.cfg.out.kind != DelimOutput ==> r.out.files == map[]
  {
    match Begin(job)
    case Err(e) => Run(Initial(), Some(e))
    case Ok(c) => Finish(job, Process(job, c.indices, Rows(job, SnapEndAsWritten(job.data, job.cfg.endByte), c.pos, c.tell, 0), Initial()))
  }

  // ---------------------------------------------------------------------------
  // What the loop reads

  /** Row numbers run on from n one by one; none passes last_row; keepx
      before decoding is the sampling and first_row test of that number. */
  predicate NumberedFrom(job: Job, rs: seq<RowEvent>, n: nat) {
    forall i :: 0 <= i < |rs| ==>
      rs[i].number == n + 1 + i
      && (job.cfg.lastRow.Some? ==> rs[i].number <= job.cfg.lastRow.value)
      && (rs[i].eligible <==> Eligible(job.cfg, job.draw, rs[i].number))
  }

  lemma {:induction false} RowsNumbered(job: Job, end: Option<real>, pos: nat, tell: nat, n: nat)
    requires Advances(job)
    ensures NumberedFrom(job, Rows(job, end, pos, tell, n), n)
    decreases |job.data| - pos
  {
    var r := Next(job, end, pos, tell);
    var rs := Rows(job, end, pos, tell, n);
    RowsUnfold(job, end, pos, tell, n);
    if rs != [] {
      var rest := Rows(job, end, r.value.pos, r.value.tell, n + 1);
      var ev := RowEvent(n + 1, pos, r.value.cols, Eligible(job.cfg, job.draw, n + 1));
      assert rs == [ev] + rest;
      RowsNumbered(job, end, r.value.pos, r.value.tell, n + 1);
      forall i | 0 <= i < |rs|
        ensures rs[i].number == n + 1 + i
        ensures job.cfg.lastRow.Some? ==> rs[i].number <= job.cfg.lastRow.value
        ensures rs[i].eligible <==> Eligible(job.cfg, job.draw, rs[i].number)
      {
        if i > 0 {
          assert rs[i] == rest[i - 1];
        }
      }
    }
  }

  /** The rows the input offers from pos on before the data or the end
      byte runs out, whatever last_row says. */
  function Available(job: Job, end: Option<real>, pos: nat, tell: nat): nat
    requires Advances(job)
    decreases |job.data| - pos
  {
    match Next(job, end, pos, tell)
    case None => 0
    case Some(raw) =>
      if end.Some? && raw.tell as real > end.value then 0 else 1 + Available(job, end, raw.pos, raw.tell)
  }

  /** The loop counts every row on offer, but no more than last_row. */
  lemma {:induction false} RowsLength(job: Job, end: Option<real>, pos: nat, tell: nat, n: nat)
    requires Advances(job)
    requires job.cfg.lastRow.Some? ==> n <= job.cfg.lastRow.value
    ensures |Rows(job, end, pos, tell, n)| ==
      if job.cfg.lastRow.Some? && job.cfg.lastRow.value - n < Available(job, end, pos, tell)
      then job.cfg.lastRow.value - n else Available(job, end, pos, tell)
    decreases |job.data| - pos
  {
    var r := Next(job, end, pos, tell);
    if r.Some? && !(job.cfg.lastRow.Some? && n + 1 > job.cfg.lastRow.value)
       && !(end.Some? && r.value.tell as real > end.value) {
      RowsLength(job, end, r.value.pos, r.value.tell, n + 1);
    }
  }

  /** With every row sampled in, first_row f and last_row L, and at least
      L rows on offer, the loop counts rows 1..L and decodes exactly rows
      f..L. */
  lemma RowWindow(job: Job, end: Option<real>, pos: nat, tell: nat, f: int, last: int)
    requires Advances(job)
    requires job.cfg.sampleRate == 1.0 && job.cfg.firstRow == Some(f) && job.cfg.lastRow == Some(last)
    requires 0 <= last <= Available(job, end, pos, tell)
    ensures var rs := Rows(job, end, pos, tell, 0);
      |rs| == last && forall i :: 0 <= i < last ==> rs[i].number == i + 1 && (rs[i].eligible <==> f <= i + 1)
  {
    RowsLength(job, end, pos, tell, 0);
    RowsNumbered(job, end, pos, tell, 0);
  }

  /** A DELIM read without last_row counts the lines from pos on, up to the
      first that ends past end_byte, each split at the delimiter. */
  lemma {:induction false} DelimRowsAreLines(job: Job, end: Option<real>, pos: nat, tell: nat, n: nat)
    requires job.layout.Delimited? && job.cfg.lastRow.None?
    ensures var rs := Rows(job, end, pos, tell, n);
      var starts := LineStarts(job.data, pos, end);
      |rs| == |starts|
      && forall i :: 0 <= i < |rs| ==>
           rs[i].start == starts[i] && rs[i].start < |job.data|
           && rs[i].cols == Split(job.data[rs[i].start..NextStart(job.data, rs[i].start)], job.layout.delim)
    decreases |job.data| - pos
  {
    if pos < |job.data| {
      var q := NextStart(job.data, pos);
      DelimRowsAreLines(job, end, q, q, n + 1);
      assert Next(job, end, pos, tell) == Some(Raw(Split(job.data[pos..q], job.layout.delim), q, q));
      RowsUnfold(job, end, pos, tell, n);
    }
  }

  /** Processing a first row, then the rest. */
  lemma ProcessCons(job: Job, indices: seq<nat>, ev: RowEvent, rest: seq<RowEvent>, st: OutState)
    requires |indices| == |job.rules|
    ensures var h := Handle(job, indices, ev, st);
      Process(job, indices, [ev] + rest, st)
      == if h.Err? then Run(st, Some(h.error)) else Process(job, indices, rest, h.value)
  {
    assert ([ev] + rest)[1..] == rest;
  }

  // ---------------------------------------------------------------------------
  // What the output receives

  /** The records that pass decoding, keepx and the hooks, in order, up to
      the first row whose decoding fails. */
  function Kept(job: Job, indices: seq<nat>, events: seq<RowEvent>): seq<Record>
    requires |indices| == |job.rules|
    decreases |events|
  {
    if events == [] then []
    else if !events[0].eligible then Kept(job, indices, events[1..])
    else match DecodeRow(job.rules, events[0].cols, indices, job.removeChar, job.parseFloat)
      case Err(_) => []
      case Ok(d) =>
        var hooked := Hooks(job, d.0);
        if d.1 && hooked.0 then [hooked.1] + Kept(job, indices, events[1..]) else Kept(job, indices, events[1..])
  }

  function ValueRows(recs: seq<Record>): (r: seq<seq<Value>>)
    ensures |r| == |recs| && forall i :: 0 <= i < |recs| ==> r[i] == FieldValues(recs[i])
  {
    seq(|recs|, i requires 0 <= i < |recs| => FieldValues(recs[i]))
  }

  lemma ValueRowsAppend(a: seq<Record>, b: seq<Record>)
    ensures ValueRows(a + b) == ValueRows(a) + ValueRows(b)
  {
  }

  /** The record one row contributes to the output, if any. */
  function KeptRow(job: Job, indices: seq<nat>, ev: RowEvent): seq<Record>
    requires |indices| == |job.rules|
  {
    if !ev.eligible then []
    else match DecodeRow(job.rules, ev.cols, indices, job.removeChar, job.parseFloat)
      case Err(_) => []
      case Ok(d) =>
        var hooked := Hooks(job, d.0);
        if d.1 && hooked.0 then [hooked.1] else []
  }

  /** One row on an in-memory output: it fails only on a field error, and
      otherwise appends the values of the record it keeps. */
  lemma HandleCollects(job: Job, indices: seq<nat>, events: seq<RowEvent>, st: OutState)
    requires |indices| == |job.rules| && events != []
    requires job.cfg.out.kind == ListOutput && job.cfg.out.partition.None?
    ensures var h := Handle(job, indices, events[0], st);
      (h.Err? ==> h.error.Field?)
      && (h.Ok? ==> h.value.collected == st.collected + ValueRows(KeptRow(job, indices, events[0]))
                    && Kept(job, indices, events) == KeptRow(job, indices, events[0]) + Kept(job, indices, events[1..]))
  {
    var ev := events[0];
    if ev.eligible {
      var d := DecodeRow(job.rules, ev.cols, indices, job.removeChar, job.parseFloat);
      if d.Ok? && d.value.1 && Hooks(job, d.value.0).0 {
        ListStep(job.cfg.out, job.show, job.garbage, st, Hooks(job, d.value.0).1);
      }
    }
  }

  /** In-memory output: the only error a read can end with is a field's. */
  lemma {:induction false} ProcessFailsOnField(job: Job, indices: seq<nat>, events: seq<RowEvent>, st: OutState)
    requires |indices| == |job.rules|
    requires job.cfg.out.kind == ListOutput && job.cfg.out.partition.None?
    ensures var r := Process(job, indices, events, st);
      r.error.Some? ==> r.error.value.Field?
    decreases |events|
  {
    if events != [] {
      HandleCollects(job, indices, events, st);
      var h := Handle(job, indices, events[0], st);
      if h.Ok? {
        ProcessFailsOnField(job, indices, events[1..], h.value);
      }
    }
  }

  /** In-memory output: when the read ends without an error, output_data
      holds the values of every kept record, in file order. */
  lemma {:induction false} ProcessCollects(job: Job, indices: seq<nat>, events: seq<RowEvent>, st: OutState)
    requires |indices| == |job.rules|
    requires job.cfg.out.kind == ListOutput && job.cfg.out.partition.None?
    ensures var r := Process(job, indices, events, st);
      r.error.None? ==> r.out.collected == st.collected + ValueRows(Kept(job, indices, events))
    decreases |events|
  {
    if events != [] {
      HandleCollects(job, indices, events, st);
      var h := Handle(job, indices, events[0], st);
      if h.Ok? {
        ProcessCollects(job, indices, events[1..], h.value);
        ValueRowsAppend(KeptRow(job, indices, events[0]), Kept(job, indices, events[1..]));
      }
    }
  }

  /** A delimited output keeps its invariant over any run of rows: an
      unpartitioned file never holds more than split_file + 1 rows, a
      partition value's count stays within [-1, split_file]. */
  lemma {:induction false} ProcessKeepsInv(job: Job, indices: seq<nat>, events: seq<RowEvent>, st: OutState)
    requires |indices| == |job.rules|
    requires job.cfg.out.kind == DelimOutput && ValidConfig(job.cfg.out)
    requires job.cfg.out.partition.None? ==> PlainInv(job.cfg.out, st)
    requires job.cfg.out.partition.Some? ==> PartInv(job.cfg.out, st)
    ensures var r := Process(job, indices, events, st).out;
      (job.cfg.out.partition.None? ==> PlainInv(job.cfg.out, r))
      && (job.cfg.out.partition.Some? ==> PartInv(job.cfg.out, r))
    decreases |events|
  {
    if events != [] {
      var h := Handle(job, indices, events[0], st);
      if h.Ok? {
        if h.value != st {
          var d := DecodeRow(job.rules, events[0].cols, indices, job.removeChar, job.parseFloat);
          if job.cfg.out.partition.None? {
            PlainStep(job.cfg.out, job.show, job.garbage, st, Hooks(job, d.value.0).1);
          } else {
            PartKeepsInv(job.cfg.out, job.show, job.garbage, st, Hooks(job, d.value.0).1);
          }
        }
        ProcessKeepsInv(job, indices, events[1..], h.value);
      }
    }
  }

  /** After a whole read to a delimited output, no unpartitioned file holds
      more than split_file + 1 rows and every partition file exists. */
  lemma ReadFileKeepsInv(job: Job)
    requires Advances(job)
    requires job.cfg.out.kind == DelimOutput && ValidConfig(job.cfg.out)
    ensures job.cfg.out.partition.None? ==> PlainInv(job.cfg.out, ReadFile(job).out)
    ensures job.cfg.out.partition.Some? ==> PartInv(job.cfg.out, ReadFile(job).out)
  {
    InitialInv(job.cfg.out);
    var b := Begin(job);
    if b.Ok? {
      ProcessKeepsInv(job, b.value.indices, Rows(job, SnapEndAsWritten(job.data, job.cfg.endByte), b.value.pos, b.value.tell, 0), Initial());
    }
  }

  /** Rows that keepx turns away before decoding change nothing. */
  lemma {:induction false} SkippedRowsChangeNothing(job: Job, indices: seq<nat>, events: seq<RowEvent>, st: OutState)
    requires |indices| == |job.rules|
    requires forall i :: 0 <= i < |events| ==> !events[i].eligible
    ensures Process(job, indices, events, st) == Run(st, None)
    decreases |events|
  {
    if events != [] {
      assert !events[0].eligible;
      SkippedRowsChangeNothing(job, indices, events[1..], st);
    }
  }

  /** A headerless file, DELIM or FLAT, whose first_row lies past its last
      line keeps no row, so the unpartitioned DELIM output is never opened
      and closing it ends the read. */
  lemma NoRowKeptNeverOpened(job: Job)
    requires Advances(job) && job.data != []
    requires job.layout.Fixed? || !job.cfg.headers
    requires job.cfg.firstRow.Some? && job.cfg.firstRow.value > |job.data|
    requires job.cfg.out.kind == DelimOutput && job.cfg.out.partition.None?
    ensures ReadFile(job).error == Some(NeverOpened)
  {
    var c := Begin(job).value;
    var rows := Rows(job, SnapEndAsWritten(job.data, job.cfg.endByte), c.pos, c.tell, 0);
    RowsNumbered(job, SnapEndAsWritten(job.data, job.cfg.endByte), c.pos, c.tell, 0);
    forall i | 0 <= i < |rows|
      ensures !rows[i].eligible
    {
      assert rows[i].number == i + 1 <= |job.data|;
    }
    SkippedRowsChangeNothing(job, c.indices, rows, Initial());
  }

  // ---------------------------------------------------------------------------
  // The reader

  /** The read position and the header mapping. */
  method Start(job: Job) returns (r: Result<Cursor, ReadError>)
    ensures r == Begin(job)
  {
    if job.data == [] {
      return Err(EmptyData);
    }
    var offset := SnapStartAsWritten(job.data, job.cfg.startByte);
    if job.layout.Fixed? {
      return Ok(Cursor(offset, 0, Identity(|job.rules|)));
    }
    if !job.cfg.headers {
      return Ok(Cursor(offset, offset, Identity(|job.rules|)));
    }
    var found := HeaderIndices(Names(job.rules), HeaderNames(job.data, job.layout.delim));
    if found.Err? {
      return Err(ColumnNotInFile(found.error));
    }
    var pos := offset;
    if job.cfg.startByte <= 0.0 {
      pos := NextStart(job.data, 0);
    }
    return Ok(Cursor(pos, pos, found.value));
  }

  /** The body of the loop once a row is counted: decode it when keepx is
      still true, then offer it to the hooks and the output. */
  method HandleRow(job: Job, indices: seq<nat>, ev: RowEvent, out: Output) returns (err: Option<ReadError>)
    requires |indices| == |job.rules|
    requires out.cfg == job.cfg.out && out.show == job.show && out.garbage == job.garbage
    modifies out
    ensures var h := Handle(job, indices, ev, old(out.State()));
      (h.Ok? ==> err.None? && out.State() == h.value)
      && (h.Err? ==> err == Some(h.error) && out.State() == old(out.State()))
  {
    if !ev.eligible {
      return None;
    }
    var decoded := DecodeRecord(job.rules, ev.cols, indices, job.removeChar, job.parseFloat);
    if decoded.Err? {
      return Some(Field(decoded.error));
    }
    var hooked := Hooks(job, decoded.value.0);
    if decoded.value.1 && hooked.0 {
      var failed := out.Emit(hooked.1);
      if failed.Some? {
        return Some(Output(failed.value));
      }
    }
    return None;
  }

  /** The reader: the while True loop over the rows. */
  method Read(job: Job) returns (run: Run)
    requires Advances(job)
    ensures run == ReadFile(job)
  {
    var begin := Start(job);
    if begin.Err? {
      return Run(Initial(), Some(begin.error));
    }
    var end := SnapEndAsWritten(job.data, job.cfg.endByte);
    var indices := begin.value.indices;
    var pos := begin.value.pos;
    var tell := begin.value.tell;
    var out := new Output(job.cfg.out, job.show, job.garbage);
    var n := 0;
    while true
      invariant |indices| == |job.rules|
      invariant out.cfg == job.cfg.out && out.show == job.show && out.garbage == job.garbage
      invariant Finish(job, Process(job, indices, Rows(job, end, pos, tell, n), out.State())) == ReadFile(job)
      decreases |job.data| - pos
    {
      RowsUnfold(job, end, pos, tell, n);
      ghost var rows := Rows(job, end, pos, tell, n);
      var raw := Next(job, end, pos, tell);
      if raw.None? {
        assert rows == [];
        return Finish(job, Run(out.State(), None));
      }
      var keep := true;
      if job.cfg.sampleRate < 1.0 && job.draw(n + 1) > job.cfg.sampleRate {
        keep := false;
      }
      n := n + 1;
      if job.cfg.firstRow.Some? {
        keep := keep && n >= job.cfg.firstRow.value;
      }
      if job.cfg.lastRow.Some? && n > job.cfg.lastRow.value {
        assert rows == [];
        return Finish(job, Run(out.State(), None));
      }
      if end.Some? && raw.value.tell as real > end.value {
        assert rows == [];
        return Finish(job, Run(out.State(), None));
      }
      var ev := RowEvent(n, pos, raw.value.cols, keep);
      ghost var rest := Rows(job, end, raw.value.pos, raw.value.tell, n);
      ghost var st := out.State();
      assert rows == [ev] + rest;
      var err := HandleRow(job, indices, ev, out);
      ProcessCons(job, indices, ev, rest, st);
      if err.Some? {
        return Run(out.State(), err);
      }
      pos := raw.value.pos;
      tell := raw.value.tell;
    }
  }
}
