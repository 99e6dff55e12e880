/** multi_process: the byte range, row limits and output name handed to
    each worker, and why the ranges cover the file's lines once each. */
module Chunks {
  import opened Common
  import opened Reader

  // ---------------------------------------------------------------------------
  // Output names

  /** The letters numbering worker output files, as written: 'q' stands at
      both 16 and 22. */
  function VersionAsWritten(): string {
    "abcdefghijklmnopqrstuvqxyz"
  }

  /** The alphabet the numbering evidently intends. */
  function Version(): string {
    seq(26, i requires 0 <= i < 26 => ('a' as int + i) as char)
  }

  lemma VersionIsAlphabet()
    ensures Version() == "abcdefghijklmnopqrstuvwxyz"
  {
  }

  /** Worker ind's output file: with a '.' after the first character,
      every '.' gets the worker's letter in front; otherwise the worker's
      number is appended. */
  function ChunkName(outputFile: string, ind: nat, letters: string): string
    requires ind < |letters|
  {
    if Find(outputFile, ".") > 0 then ReplaceChar(outputFile, '.', [letters[ind], '.'])
    else outputFile + NatToString(ind)
  }

  /** As written, workers 16 and 22 get the same file whenever the name
      has a '.' after its first character, so 23 or more workers write over
      each other's output. */
  lemma AsWrittenNamesCollide(outputFile: string)
    requires Find(outputFile, ".") > 0
    ensures ChunkName(outputFile, 16, VersionAsWritten()) == ChunkName(outputFile, 22, VersionAsWritten())
  {
    assert VersionAsWritten()[16] == VersionAsWritten()[22] == 'q';
  }

  lemma DotInOutCsv()
    ensures Find("out.csv", ".") == 3
  {
    var f := "out.csv";
    assert f[0..1] == "o" && f[1..2] == "u" && f[2..3] == "t" && f[3..4] == ".";
    assert FindFrom(f, ".", 3) == 3;
    assert FindFrom(f, ".", 2) == 3;
    assert FindFrom(f, ".", 1) == 3;
  }

  lemma LetterBeforeDot()
    ensures ReplaceChar("out.csv", '.', "q.") == "outq.csv"
  {
    var f := "out.csv";
    assert f[1..] == "ut.csv" && f[2..] == "t.csv" && f[3..] == ".csv" && f[4..] == "csv";
    assert ReplaceChar("csv", '.', "q.") == "csv";
    assert ReplaceChar(f[3..], '.', "q.") == "q.csv";
  }

  lemma AsWrittenCollisionExample()
    ensures ChunkName("out.csv", 16, VersionAsWritten()) == "outq.csv" == ChunkName("out.csv", 22, VersionAsWritten())
  {
    DotInOutCsv();
    LetterBeforeDot();
    AsWrittenNamesCollide("out.csv");
    assert [VersionAsWritten()[16], '.'] == "q.";
  }

  /** Replacing a character leaves the text before its first occurrence as
      it was and puts the replacement where it stood. */
  lemma {:induction false} ReplaceAtFirst(f: string, k: nat, rep: string)
    requires k < |f| && f[k] == '.' && forall j :: 0 <= j < k ==> f[j] != '.'
    ensures |ReplaceChar(f, '.', rep)| >= k + |rep|
    ensures ReplaceChar(f, '.', rep)[k..k + |rep|] == rep
  {
    if k > 0 {
      ReplaceAtFirst(f[1..], k - 1, rep);
      assert ReplaceChar(f, '.', rep) == [f[0]] + ReplaceChar(f[1..], '.', rep);
    }
  }

  /** With the corrected letters, no two workers share an output file. */
  lemma ChunkNamesDistinct(outputFile: string, i: nat, j: nat)
    requires i < 26 && j < 26 && i != j
    ensures ChunkName(outputFile, i, Version()) != ChunkName(outputFile, j, Version())
  {
    var k := Find(outputFile, ".");
    if k > 0 {
      assert outputFile[k..k + 1] == ".";
      assert outputFile[k] == '.';
      forall l | 0 <= l < k
        ensures outputFile[l] != '.'
      {
        assert !StartsWithAt(outputFile, ".", l);
        assert outputFile[l..l + 1] == [outputFile[l]];
      }
      ReplaceAtFirst(outputFile, k, [Version()[i], '.']);
      ReplaceAtFirst(outputFile, k, [Version()[j], '.']);
      assert ChunkName(outputFile, i, Version())[k] == Version()[i];
      assert ChunkName(outputFile, j, Version())[k] == Version()[j];
    } else {
      var a := ChunkName(outputFile, i, Version());
      var b := ChunkName(outputFile, j, Version());
      if a == b {
        assert a[|outputFile|..] == NatToString(i);
        assert b[|outputFile|..] == NatToString(j);
        NatToStringInjective(i, j);
      }
    }
  }

  /** The written letters agree with the alphabet up to 'v'. */
  lemma WrittenLettersAgree(i: nat)
    requires i < 22
    ensures VersionAsWritten()[i] == Version()[i]
  {
    assert VersionAsWritten()[..22] == "abcdefghijklmnopqrstuv";
    assert Version()[..22] == "abcdefghijklmnopqrstuv" by { VersionIsAlphabet(); }
    assert VersionAsWritten()[i] == VersionAsWritten()[..22][i];
    assert Version()[i] == Version()[..22][i];
  }

  /** With the written letters, the first 22 workers still get distinct
      output files; only the 23rd collides. */
  lemma AsWrittenNamesDistinct(outputFile: string, i: nat, j: nat)
    requires i < 22 && j < 22 && i != j
    ensures ChunkName(outputFile, i, VersionAsWritten()) != ChunkName(outputFile, j, VersionAsWritten())
  {
    WrittenLettersAgree(i);
    WrittenLettersAgree(j);
    assert ChunkName(outputFile, i, VersionAsWritten()) == ChunkName(outputFile, i, Version());
    assert ChunkName(outputFile, j, VersionAsWritten()) == ChunkName(outputFile, j, Version());
    ChunkNamesDistinct(outputFile, i, j);
  }

  // ---------------------------------------------------------------------------
  // The plan

  datatype PlanError =
    | ZeroProcesses          // the division by num_process fails
    | TooManyProcesses
    | MissingOutputType      // params['output_type'] with no such key
    | MissingOutputFile      // the output file name to number is absent

  function StartOf(sz: real, k: nat): real {
    if k == 0 then 0.0 else k as real * sz - 1.0
  }

  function EndOf(sz: real, k: nat): real {
    (k + 1) as real * sz - 1.0
  }

  /** Whether worker outputs are numbered: several workers writing files. */
  predicate Numbered(p: Params, num: int) {
    num > 1 && p.outputType.Some? && Upper(p.outputType.value) in ["DELIM", "TFRECORDS"]
  }

  /** Worker k's parameters: the caller's, with its byte range, no
      last_row, first_row only for the first worker, and its own output
      file when outputs are numbered. */
  function Worker(p: Params, sz: real, num: int, k: nat): Params
    requires k < 26
  {
    p.(startByte := Some(StartOf(sz, k)), endByte := Some(EndOf(sz, k)), lastRow := None,
       firstRow := if k == 0 then p.firstRow else None,
       outputFile := if Numbered(p, num) && p.outputFile.Some? then Some(ChunkName(p.outputFile.value, k, VersionAsWritten()))
                     else p.outputFile)
  }

  /** The loop of multi_process that builds one parameter set per worker. */
  method PlanChunks(p: Params, size: nat, num: int) returns (r: Result<seq<Params>, PlanError>)
    ensures num == 0 ==> r == Err(ZeroProcesses)
    ensures num > 25 ==> r == Err(TooManyProcesses)
    ensures num < 0 ==> r == Ok([])
    ensures 0 < num <= 25 ==>
      (r.Ok? <==> (num > 1 ==> p.outputType.Some?) && (Numbered(p, num) ==> p.outputFile.Some?))
    ensures r.Ok? && 0 < num <= 25 ==>
      |r.value| == num
      && forall k :: 0 <= k < num ==> r.value[k] == Worker(p, size as real / num as real, num, k)
  {
    if num == 0 {
      return Err(ZeroProcesses);
    }
    var sz := size as real / num as real;
    if num > 25 {
      return Err(TooManyProcesses);
    }
    var plan: seq<Params> := [];
    var start := 0.0;
    var end := sz - 1.0;
    var first := p.firstRow;
    var k := 0;
    while k < num
      invariant 0 <= k <= (if num > 0 then num else 0)
      invariant |plan| == k && forall j :: 0 <= j < k ==> plan[j] == Worker(p, sz, num, j)
      invariant start == StartOf(sz, k) && end == EndOf(sz, k)
      invariant first == if k == 0 then p.firstRow else None
      invariant k > 0 ==> (num > 1 ==> p.outputType.Some?) && (Numbered(p, num) ==> p.outputFile.Some?)
      decreases num - k
    {
      var px := p.(startByte := Some(start), endByte := Some(end), lastRow := None, firstRow := first);
      if num > 1 {
        if p.outputType.None? {
          return Err(MissingOutputType);
        }
        if Upper(p.outputType.value) in ["DELIM", "TFRECORDS"] {
          if p.outputFile.None? {
            return Err(MissingOutputFile);
          }
          px := px.(outputFile := Some(ChunkName(p.outputFile.value, k, VersionAsWritten())));
        }
      }
      plan := plan + [px];
      first := None;
      start := end;
      EndStep(sz, k);
      end := end + sz;
      k := k + 1;
    }
    return Ok(plan);
  }

  /** The ranges run back to back from byte 0: each worker starts where
      the one before it ends, and the last ends at the file's last byte. */
  lemma RangesAdjoin(size: nat, num: nat, k: nat)
    requires 0 < num && k + 1 < num
    ensures var sz := size as real / num as real;
      StartOf(sz, 0) == 0.0 && StartOf(sz, k + 1) == EndOf(sz, k)
      && EndOf(sz, num - 1) == size as real - 1.0
  {
    var sz := size as real / num as real;
    assert num as real * sz == size as real;
  }

  // ---------------------------------------------------------------------------
  // The ranges tile the file

  /** The lines worker k of a headerless DELIM read reads, its byte range
      snapped as the reader does it. */
  function ChunkLines(data: string, sz: real, k: nat): seq<nat> {
    LineStarts(data, SnapStartAsWritten(data, StartOf(sz, k)), SnapEndAsWritten(data, Some(EndOf(sz, k))))
  }

  /** The lines of workers 0..m-1, one after the other. */
  function AllChunkLines(data: string, sz: real, m: nat): seq<nat> {
    if m == 0 then [] else AllChunkLines(data, sz, m - 1) + ChunkLines(data, sz, m - 1)
  }

  /** The lines worker k reads with the corrected snapping. */
  function SnappedLines(data: string, sz: real, k: nat): seq<nat> {
    LineStarts(data, SnapStart(data, StartOf(sz, k)), SnapEnd(data, Some(EndOf(sz, k))))
  }

  function AllSnappedLines(data: string, sz: real, m: nat): seq<nat> {
    if m == 0 then [] else AllSnappedLines(data, sz, m - 1) + SnappedLines(data, sz, m - 1)
  }

  lemma {:induction false} NextStartMonotone(data: string, a: nat, b: nat)
    requires a <= b
    ensures NextStart(data, a) <= NextStart(data, b)
  {
    var k := NewlineFrom(data, a);
    if k >= 0 && b <= k {
      assert NewlineFrom(data, b) == k;
    }
  }

  /** Each range starts where the one before it ends, one chunk size on. */
  lemma EndStep(sz: real, k: nat)
    ensures StartOf(sz, k + 1) == EndOf(sz, k)
    ensures EndOf(sz, k) + sz == EndOf(sz, k + 1)
  {
    assert (k + 2) as real * sz == (k + 1) as real * sz + sz;
  }

  /** With chunks over a byte long, every range ends past byte 0, and the
      ends rise. */
  lemma EndsRise(sz: real, k: nat)
    requires sz > 1.0
    ensures 0.0 < EndOf(sz, k) <= EndOf(sz, k + 1)
  {
    EndStep(sz, k);
    assert (k + 1) as real * sz >= sz;
  }

  /** The last range ends at the last byte. */
  lemma LastEnd(n: nat, num: nat)
    requires 0 < num
    ensures EndOf(n as real / num as real, num - 1) == n as real - 1.0
  {
    var sz := n as real / num as real;
    assert num as real * sz == n as real;
  }

  lemma CutAtEnd(data: string)
    requires |data| > 0
    ensures NextStart(data, FindStart(|data| as real - 1.0, |data|)) == |data|
  {
    assert ((|data| - 1) as real).Floor == |data| - 1;
    assert FindStart(|data| as real - 1.0, |data|) == |data| - 1;
  }

  lemma FloorMonotone(x: real, y: real)
    requires 0.0 <= x <= y
    ensures x.Floor <= y.Floor
  {
  }

  /** The snapped end of worker k, a line boundary. */
  function Cut(data: string, sz: real, k: nat): nat {
    NextStart(data, FindStart(EndOf(sz, k), |data|))
  }

  lemma {:induction false} CutsRise(data: string, sz: real, k: nat)
    requires sz > 1.0
    ensures Cut(data, sz, k) <= Cut(data, sz, k + 1)
  {
    EndsRise(sz, k);
    FloorMonotone(EndOf(sz, k), EndOf(sz, k + 1));
    NextStartMonotone(data, FindStart(EndOf(sz, k), |data|), FindStart(EndOf(sz, k + 1), |data|));
  }

  /** Workers 0..m-1 together read every line before the end of worker
      m-1, in order, each once. */
  lemma {:induction false} SnappedPrefix(data: string, sz: real, m: nat)
    requires sz > 1.0 && m >= 1
    ensures AllSnappedLines(data, sz, m) == LineStarts(data, 0, Some(Cut(data, sz, m - 1) as real))
  {
    if m == 1 {
      assert AllSnappedLines(data, sz, 1) == SnappedLines(data, sz, 0);
    } else {
      SnappedPrefix(data, sz, m - 1);
      var b := Cut(data, sz, m - 2);
      CutsRise(data, sz, m - 2);
      EndStep(sz, m - 2);
      EndsRise(sz, m - 2);
      assert SnapStart(data, StartOf(sz, m - 1)) == b;
      LineStartsSplit(data, 0, b, Some(Cut(data, sz, m - 1) as real));
    }
  }

  /** With the corrected snapping, the byte ranges of a plan hand every
      line of a headerless DELIM file to exactly one worker, in file order:
      the workers' lines, one after the other, are the file's lines. This
      needs the file to hold more bytes than there are workers, so that
      every inner boundary lies past byte 0. */
  lemma SnappedTile(data: string, num: nat)
    requires 0 < num < |data|
    ensures AllSnappedLines(data, |data| as real / num as real, num) == LineStarts(data, 0, None)
  {
    var sz := |data| as real / num as real;
    assert sz > 1.0 by {
      assert num as real * sz == |data| as real;
    }
    SnappedPrefix(data, sz, num);
    LastEnd(|data|, num);
    CutAtEnd(data);
    LineStartsWhole(data, 0);
  }

  /** In data that ends with a newline, a newline follows every position. */
  lemma NewlineAhead(data: string, from: nat)
    requires from < |data| && data[|data| - 1] == '\n'
    ensures NewlineFrom(data, from) >= 0
  {
  }

  /** Every range of a plan lies inside the file: it ends past byte 0 and
      no later than the last byte, and an inner range starts past byte 0. */
  lemma RangeInside(n: nat, num: nat, k: nat)
    requires 0 < num < n && k < num
    ensures var sz := n as real / num as real;
      0.0 < EndOf(sz, k) <= n as real - 1.0 && (k > 0 ==> 0.0 < StartOf(sz, k) <= EndOf(sz, k))
  {
    var sz := n as real / num as real;
    assert num as real * sz == n as real;
    assert sz > 1.0;
    assert (k + 1) as real * sz <= num as real * sz;
    assert (k + 1) as real * sz >= sz;
    if k > 0 {
      assert k as real * sz >= sz;
    }
  }

  lemma FindInside(x: real, n: nat)
    requires 0.0 < x <= n as real - 1.0
    ensures FindStart(x, n) < n
  {
  }

  /** Worker k's range starts, when it is not the first, and ends at a
      position inside the data. */
  predicate RangeInData(data: string, sz: real, k: nat) {
    FindStart(EndOf(sz, k), |data|) < |data|
    && (k > 0 ==> StartOf(sz, k) > 0.0 && FindStart(StartOf(sz, k), |data|) < |data|)
  }

  lemma PlanRangesInData(data: string, num: nat, k: nat)
    requires 0 < num < |data| && k < num
    ensures RangeInData(data, |data| as real / num as real, k)
  {
    var sz := |data| as real / num as real;
    RangeInside(|data|, num, k);
    FindInside(EndOf(sz, k), |data|);
    if k > 0 {
      FindInside(StartOf(sz, k), |data|);
    }
  }

  /** In data that ends with a newline, the written snapping and the
      corrected one give a worker whose range lies in the data the same
      lines. */
  lemma ChunkLinesAgree(data: string, sz: real, k: nat)
    requires |data| > 0 && data[|data| - 1] == '\n' && RangeInData(data, sz, k)
    ensures ChunkLines(data, sz, k) == SnappedLines(data, sz, k)
  {
    NewlineAhead(data, FindStart(EndOf(sz, k), |data|));
    if k > 0 {
      NewlineAhead(data, FindStart(StartOf(sz, k), |data|));
    }
    SnapAgrees(data, StartOf(sz, k), EndOf(sz, k));
  }

  lemma AgreeStep(data: string, sz: real, m: nat)
    requires m > 0
    requires AllChunkLines(data, sz, m - 1) == AllSnappedLines(data, sz, m - 1)
    requires ChunkLines(data, sz, m - 1) == SnappedLines(data, sz, m - 1)
    ensures AllChunkLines(data, sz, m) == AllSnappedLines(data, sz, m)
  {
  }

  lemma {:induction false} AllChunkLinesAgree(data: string, sz: real, m: nat)
    requires forall k :: 0 <= k < m ==> ChunkLines(data, sz, k) == SnappedLines(data, sz, k)
    ensures AllChunkLines(data, sz, m) == AllSnappedLines(data, sz, m)
  {
    if m > 0 {
      AllChunkLinesAgree(data, sz, m - 1);
      AgreeStep(data, sz, m);
    }
  }

  /** The byte ranges of a plan, snapped as the reader does it, hand every
      line of a headerless DELIM file that ends with a newline to exactly
      one worker, in file order, provided the file holds more bytes than
      there are workers. */
  lemma ChunksTile(data: string, num: nat)
    requires 0 < num < |data| && data[|data| - 1] == '\n'
    ensures AllChunkLines(data, |data| as real / num as real, num) == LineStarts(data, 0, None)
  {
    var sz := |data| as real / num as real;
    forall k | 0 <= k < num
      ensures ChunkLines(data, sz, k) == SnappedLines(data, sz, k)
    {
      PlanRangesInData(data, num, k);
      ChunkLinesAgree(data, sz, k);
    }
    AllChunkLinesAgree(data, sz, num);
    SnappedTile(data, num);
  }

  /** Without the final newline the written snapping loses a line: on
      "a\nbbbb" split between two workers, both read the first line and
      neither reads the second. */
  lemma AsWrittenChunksMiss()
    ensures AllChunkLines("a\nbbbb", 6 as real / 2 as real, 2) == [0, 0]
    ensures LineStarts("a\nbbbb", 0, None) == [0, 2]
  {
    var data := "a\nbbbb";
    SnapAsWrittenLosesLine();
    assert EndOf(3.0, 0) == 2.0 && StartOf(3.0, 1) == 2.0 && EndOf(3.0, 1) == 5.0;
    assert ChunkLines(data, 3.0, 0) == [0];
    assert ChunkLines(data, 3.0, 1) == [0];
    assert AllChunkLines(data, 3.0, 2) == AllChunkLines(data, 3.0, 1) + ChunkLines(data, 3.0, 1);
    assert NextStart(data, 0) == 2;
    assert NewlineFrom(data, 2) == -1;
    assert NextStart(data, 2) == 6;
  }

  /** No line ends past the end of the data. */
  lemma {:induction false} LineStartsWhole(data: string, pos: nat)
    ensures LineStarts(data, pos, Some(|data| as real)) == LineStarts(data, pos, None)
    decreases |data| - pos
  {
    if pos < |data| {
      LineStartsWhole(data, NextStart(data, pos));
    }
  }
}
