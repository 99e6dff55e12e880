/** Where the generated reader sends a kept record: a delimited output file
    (rotated every split_file rows, or one file per partition value), or
    the in-memory list returned for LIST, NUMPY and PANDAS output.
    Output files are a map from path to the rows written to it; a row is
    the sequence of field texts the reader joins with output_delim. */
module Sink {
  import opened Common
  import opened Values

  // ---------------------------------------------------------------------------
  // Output file names (make_opf)

  /** The directory part (up to and including the last '/'), the name part
      and the extension (from the last '.') of an output name. A name
      without any '.' is taken as a directory, a '/' added if missing. None
      stands for the IndexError of an empty name. */
  function NameParts(outfile: string): Option<(string, string, string)> {
    var dot := RFind(outfile, '.');
    if dot < 0 then
      if outfile == [] then None
      else if outfile[|outfile| - 1] != '/' then Some((outfile + "/", "", ""))
      else Some((outfile, "", ""))
    else
      var slash := RFind(outfile, '/');
      Some((Slice(outfile, 0, slash + 1), Slice(outfile, slash + 1, dot), outfile[dot..]))
  }

  /** make_opf(outfile, partition, split_number): directory, partition
      sub-directory, name part, split number, extension. garbage is the
      character test applied to the partition text, which then becomes
      "garbage". */
  function MakeOpf(outfile: string, partition: Option<string>, split: Option<nat>,
                   garbage: string -> bool): (r: Option<string>)
    ensures r.None? <==> outfile == []
  {
    match NameParts(outfile)
    case None => None
    case Some((outdir, namepart, dotpart)) =>
      var sub :=
        if partition.None? then ""
        else (if garbage(partition.value) then "garbage" else partition.value) + "/";
      var number := if split.None? then "" else NatToString(split.value);
      Some(outdir + sub + namepart + number + dotpart)
  }

  /** A name with a '.' after its last '/' splits into three pieces that
      put back together give the name. */
  lemma NamePartsPlain(outfile: string)
    requires RFind(outfile, '/') < RFind(outfile, '.')
    ensures var dot, slash := RFind(outfile, '.'), RFind(outfile, '/');
            NameParts(outfile) == Some((outfile[..slash + 1], outfile[slash + 1..dot], outfile[dot..]))
            && outfile[..slash + 1] + outfile[slash + 1..dot] + outfile[dot..] == outfile
  {
    var dot, slash := RFind(outfile, '.'), RFind(outfile, '/');
    assert Slice(outfile, 0, slash + 1) == outfile[..slash + 1];
    assert Slice(outfile, slash + 1, dot) == outfile[slash + 1..dot];
  }

  /** A plain file name comes back unchanged. */
  lemma MakeOpfPlain(outfile: string, garbage: string -> bool)
    requires RFind(outfile, '/') < RFind(outfile, '.')
    ensures MakeOpf(outfile, None, None, garbage) == Some(outfile)
  {
    NamePartsPlain(outfile);
    var dot, slash := RFind(outfile, '.'), RFind(outfile, '/');
    assert outfile[..slash + 1] + "" + outfile[slash + 1..dot] + "" + outfile[dot..] == outfile;
  }

  /** With a split number the number goes in front of the extension. */
  lemma MakeOpfNumbered(outfile: string, n: nat, garbage: string -> bool)
    requires RFind(outfile, '/') < RFind(outfile, '.')
    ensures var dot := RFind(outfile, '.');
            MakeOpf(outfile, None, Some(n), garbage) == Some(outfile[..dot] + NatToString(n) + outfile[dot..])
  {
    NamePartsPlain(outfile);
    var dot, slash := RFind(outfile, '.'), RFind(outfile, '/');
    assert outfile[..dot] == outfile[..slash + 1] + outfile[slash + 1..dot];
    assert outfile[..slash + 1] + "" + outfile[slash + 1..dot] == outfile[..dot];
  }

  /** Different split numbers give different paths, so rotation never
      reopens a file it has already written. */
  lemma MakeOpfInjective(outfile: string, partition: Option<string>, a: nat, b: nat, garbage: string -> bool)
    requires MakeOpf(outfile, partition, Some(a), garbage).Some?
    requires MakeOpf(outfile, partition, Some(a), garbage) == MakeOpf(outfile, partition, Some(b), garbage)
    ensures a == b
  {
    var (outdir, namepart, dotpart) := NameParts(outfile).value;
    var sub := if partition.None? then "" else (if garbage(partition.value) then "garbage" else partition.value) + "/";
    var pre := outdir + sub + namepart;
    var x, y := NatToString(a), NatToString(b);
    var r := pre + x + dotpart;
    assert r == outdir + sub + namepart + x + dotpart;
    assert r == pre + y + dotpart;
    assert |x| == |y|;
    assert r[|pre|..|pre| + |x|] == x;
    assert r[|pre|..|pre| + |y|] == y;
    NatToStringInjective(a, b);
  }

  /** The partition directory sits directly under the directory of the
      output name. */
  lemma MakeOpfPartitionDir(outfile: string, p: string, split: Option<nat>, garbage: string -> bool)
    requires outfile != []
    requires !garbage(p)
    ensures var outdir := NameParts(outfile).value.0;
            MakeOpf(outfile, Some(p), split, garbage).Some?
            && MakeOpf(outfile, Some(p), split, garbage).value[..|outdir| + |p| + 1] == outdir + p + "/"
  {
  }
  // ---------------------------------------------------------------------------
  // The output state machine

  /** NUMPY and PANDAS results are built from the same list as LIST; for
      TFRECORDS only the opening of the writer is kept. */
  datatype OutputKind = DelimOutput | ListOutput | RecordsOutput

  datatype OutConfig = OutConfig(
    kind: OutputKind,
    outputFile: Option<string>,
    splitFile: Option<real>,     // None also for a split_file of 10 or less
    partition: Option<string>,
    outputHeaders: bool)

  /** An entry of outfile_dict, [path, handle, count, index]: the handle is
      the file open at path. */
  datatype Slot = Slot(path: string, count: int, index: nat)

  datatype OutError =
    | PartitionMissing   // the ValueError for a partition field not in the record
    | CannotOpen         // the FileNotFoundError for an unusable output_file
    | BadPath            // make_opf failing on a partitioned output
    | MissingField       // the KeyError of an output name the record lacks

  datatype OutState = OutState(
    starting: bool,
    outNames: seq<string>,
    rowCount: int,
    fileCount: nat,
    opf: string,
    files: map<string, seq<seq<string>>>,
    table: map<Value, Slot>,
    collected: seq<seq<Value>>)

  function Initial(): OutState {
    OutState(true, [], 0, 0, "", map[], map[], [])
  }

  /** [r for r in names if r != p] */
  function Without(names: seq<string>, p: string): (r: seq<string>)
    ensures p !in r
    ensures forall x :: x in r <==> x in names && x != p
  {
    if names == [] then []
    else (if names[0] == p then [] else [names[0]]) + Without(names[1..], p)
  }

  /** [fx_out[k] for k in fx_out.keys()] */
  function FieldValues(r: Record): (vs: seq<Value>)
    ensures |vs| == |r| && forall i :: 0 <= i < |r| ==> vs[i] == r[i].1
  {
    seq(|r|, i requires 0 <= i < |r| => r[i].1)
  }

  /** The texts str(fx_out[field]) for field in names; None for the KeyError. */
  function RowOf(rec: Record, names: seq<string>, show: Value -> string): Option<seq<string>> {
    if names == [] then Some([])
    else match (Get(rec, names[0]), RowOf(rec, names[1..], show))
      case (Some(v), Some(rest)) => Some([show(v)] + rest)
      case _ => None
  }

  /** out_names: recomputed from the record while starting, the partition
      field taken out. */
  function NamesFor(cfg: OutConfig, st: OutState, rec: Record): Result<seq<string>, OutError> {
    if !st.starting then Ok(st.outNames)
    else if cfg.partition.None? then Ok(Keys(rec))
    else if cfg.partition.value !in Keys(rec) then Err(PartitionMissing)
    else Ok(Without(Keys(rec), cfg.partition.value))
  }

  /** count > split_file */
  predicate Exceeds(cfg: OutConfig, count: int) {
    cfg.splitFile.Some? && count as real > cfg.splitFile.value
  }

  function Header(cfg: OutConfig, names: seq<string>): seq<seq<string>> {
    if cfg.outputHeaders then [names] else []
  }

  function FileOr(files: map<string, seq<seq<string>>>, path: string): seq<seq<string>> {
    if path in files then files[path] else []
  }

  /** Opening the next file when starting: mode "w", numbered by
      file_count when splitting. */
  function OpenPlain(cfg: OutConfig, garbage: string -> bool, st: OutState, names: seq<string>): Result<OutState, OutError> {
    if !st.starting then Ok(st)
    else if cfg.outputFile.None? then Err(CannotOpen)
    else if cfg.splitFile.None? then
      Ok(st.(rowCount := 0, opf := cfg.outputFile.value, starting := false,
             files := st.files[cfg.outputFile.value := Header(cfg, names)]))
    else match MakeOpf(cfg.outputFile.value, None, Some(st.fileCount), garbage)
      case None => Err(CannotOpen)
      case Some(path) =>
        Ok(st.(rowCount := 0, opf := path, starting := false, fileCount := st.fileCount + 1,
               files := st.files[path := Header(cfg, names)]))
  }

  /** One row to the unpartitioned output; the file is closed and
      rotation re-armed once it holds more than split_file rows. */
  function WritePlain(cfg: OutConfig, show: Value -> string, garbage: string -> bool,
                      st: OutState, names: seq<string>, rec: Record): Result<OutState, OutError>
  {
    match OpenPlain(cfg, garbage, st, names)
    case Err(e) => Err(e)
    case Ok(s1) =>
      match RowOf(rec, names, show)
      case None => Err(MissingField)
      case Some(row) =>
        Ok(s1.(rowCount := s1.rowCount + 1,
               files := s1.files[s1.opf := FileOr(s1.files, s1.opf) + [row]],
               starting := Exceeds(cfg, s1.rowCount + 1)))
  }

  function PartPath(cfg: OutConfig, garbage: string -> bool, subdir: string, split: Option<nat>): Option<string> {
    if cfg.outputFile.None? then None else MakeOpf(cfg.outputFile.value, Some(subdir), split, garbage)
  }

  /** The slot of the record's partition value before its row is counted:
      a new value opens index 0, a value whose file was closed reopens at
      its next index; both in mode "a". */
  function OpenSlot(cfg: OutConfig, garbage: string -> bool, table: map<Value, Slot>,
                    key: Value, subdir: string): Option<Slot>
  {
    if key in table then
      var sl := table[key];
      if sl.count >= 0 then Some(sl)
      else match PartPath(cfg, garbage, subdir, Some(sl.index))
        case None => None
        case Some(path) => Some(Slot(path, 0, sl.index))
    else match PartPath(cfg, garbage, subdir, if cfg.splitFile.Some? then Some(0) else None)
      case None => None
      case Some(path) => Some(Slot(path, 0, 0))
  }

  /** The slot once a row has been counted in it. */
  function PartNext(cfg: OutConfig, sl: Slot): Slot {
    var counted := sl.count + 1;
    if Exceeds(cfg, counted) then Slot(sl.path, -1, sl.index + 1) else Slot(sl.path, counted, sl.index)
  }

  /** One row to the file of its partition value; after more than
      split_file rows that file is closed, the index moves on and the count
      becomes -1 until the value is seen again. */
  function WritePart(cfg: OutConfig, show: Value -> string, garbage: string -> bool,
                     st: OutState, p: string, names: seq<string>, rec: Record): Result<OutState, OutError>
  {
    match Get(rec, p)
    case None => Err(PartitionMissing)
    case Some(key) =>
      match OpenSlot(cfg, garbage, st.table, DictKey(key), p + "=" + show(key))
      case None => Err(BadPath)
      case Some(sl) =>
        match RowOf(rec, names, show)
        case None => Err(MissingField)
        case Some(row) =>
          Ok(st.(table := st.table[DictKey(key) := PartNext(cfg, sl)],
                 files := st.files[sl.path := FileOr(st.files, sl.path) + [row]]))
  }

  /** What happens to a record that survived decoding and the hooks. */
  function Step(cfg: OutConfig, show: Value -> string, garbage: string -> bool,
                st: OutState, rec: Record): (r: Result<OutState, OutError>)
    ensures r.Ok? ==> st.files.Keys <= r.value.files.Keys
    ensures r.Ok? && cfg.kind != DelimOutput ==> r.value.files == st.files
    ensures r.Ok? && cfg.kind != ListOutput ==> r.value.collected == st.collected
  {
    match NamesFor(cfg, st, rec)
    case Err(e) => Err(e)
    case Ok(names) =>
      var s1 := st.(outNames := names);
      if cfg.kind == ListOutput then Ok(s1.(collected := s1.collected + [FieldValues(rec)]))
      else if cfg.kind == RecordsOutput then Ok(s1.(starting := false))
      else
        assert cfg.kind == DelimOutput;
        if cfg.partition.None? then WritePlain(cfg, show, garbage, s1, names, rec)
        else WritePart(cfg, show, garbage, s1, cfg.partition.value, names, rec)
  }
  // ---------------------------------------------------------------------------
  // What the output keeps

  /** What the parameter checks guarantee: a split_file that is kept is
      above 10. */
  predicate ValidConfig(cfg: OutConfig) {
    cfg.splitFile.Some? ==> cfg.splitFile.value > 10.0
  }

  function Hdr(cfg: OutConfig): nat {
    if cfg.outputHeaders then 1 else 0
  }

  /** The unpartitioned output between records: an open file holds its
      header and row_count rows, row_count not past split_file, and no file
      ever holds more than split_file + 1 rows. */
  predicate PlainInv(cfg: OutConfig, st: OutState) {
    (!st.starting ==>
       st.opf in st.files && 0 <= st.rowCount && |st.files[st.opf]| == Hdr(cfg) + st.rowCount
       && !Exceeds(cfg, st.rowCount))
    && (cfg.splitFile.Some? ==>
       forall path :: path in st.files ==> (|st.files[path]| - Hdr(cfg)) as real <= cfg.splitFile.value + 1.0)
  }

  /** The partitioned output: every known value's count lies between -1
      and split_file, and its file exists. */
  predicate PartInv(cfg: OutConfig, st: OutState) {
    forall k :: k in st.table ==>
      -1 <= st.table[k].count && st.table[k].path in st.files
      && (cfg.splitFile.Some? ==> st.table[k].count as real <= cfg.splitFile.value)
  }

  lemma InitialInv(cfg: OutConfig)
    ensures PlainInv(cfg, Initial()) && PartInv(cfg, Initial())
  {
  }

  /** A record to the unpartitioned output: when starting, out_names is
      taken from the record and a fresh file is opened, numbered by
      file_count when splitting; the row goes after what the file held;
      no other file changes; the output re-arms exactly when the file now
      holds more than split_file rows. The invariant is kept. */
  lemma PlainStep(cfg: OutConfig, show: Value -> string, garbage: string -> bool, st: OutState, rec: Record)
    requires cfg.kind == DelimOutput && cfg.partition.None? && ValidConfig(cfg)
    requires PlainInv(cfg, st)
    requires Step(cfg, show, garbage, st, rec).Ok?
    ensures var st' := Step(cfg, show, garbage, st, rec).value;
      PlainInv(cfg, st')
      && st'.outNames == (if st.starting then Keys(rec) else st.outNames)
      && RowOf(rec, st'.outNames, show).Some?
      && st'.opf in st'.files
      && st'.files[st'.opf] == (if st.starting then Header(cfg, st'.outNames) else st.files[st.opf]) + [RowOf(rec, st'.outNames, show).value]
      && (forall path :: path in st.files && path != st'.opf ==> path in st'.files && st'.files[path] == st.files[path])
      && (st.starting && cfg.splitFile.Some? ==>
            cfg.outputFile.Some? && Some(st'.opf) == MakeOpf(cfg.outputFile.value, None, Some(st.fileCount), garbage)
            && st'.fileCount == st.fileCount + 1)
      && (!st.starting ==> st'.opf == st.opf && st'.fileCount == st.fileCount)
      && (st'.starting <==> Exceeds(cfg, st'.rowCount))
      && (st'.starting ==> |st'.files[st'.opf]| - Hdr(cfg) == st'.rowCount && st'.rowCount as real > cfg.splitFile.value)
  {
    var names := NamesFor(cfg, st, rec).value;
    var s1 := OpenPlain(cfg, garbage, st.(outNames := names), names).value;
    assert !s1.starting && s1.opf in s1.files && |s1.files[s1.opf]| == Hdr(cfg) + s1.rowCount;
    assert !Exceeds(cfg, s1.rowCount);
  }

  /** A record to the partitioned output: its partition value's slot,
      found under the value's dict key (so 1 and 1.0 share one), is
      opened at index 0 on first sight, reopened at its index after a
      rotation, and counts the row; past split_file rows the index moves
      on and the count becomes -1. The row goes to that slot's file; every
      other value's slot and every other file is unchanged. */
  lemma PartStep(cfg: OutConfig, show: Value -> string, garbage: string -> bool, st: OutState, rec: Record)
    requires cfg.kind == DelimOutput && cfg.partition.Some?
    requires Step(cfg, show, garbage, st, rec).Ok?
    ensures Get(rec, cfg.partition.value).Some?
    ensures var st' := Step(cfg, show, garbage, st, rec).value;
      var key := DictKey(Get(rec, cfg.partition.value).value);
      var dir := cfg.partition.value + "=" + show(Get(rec, cfg.partition.value).value);
      var slot0 :=
        if key !in st.table then Slot(PartPath(cfg, garbage, dir, if cfg.splitFile.Some? then Some(0) else None).value, 0, 0)
        else if st.table[key].count < 0 then Slot(PartPath(cfg, garbage, dir, Some(st.table[key].index)).value, 0, st.table[key].index)
        else st.table[key];
      var counted := slot0.count + 1;
      (key !in st.table ==> PartPath(cfg, garbage, dir, if cfg.splitFile.Some? then Some(0) else None).Some?)
      && (key in st.table && st.table[key].count < 0 ==> PartPath(cfg, garbage, dir, Some(st.table[key].index)).Some?)
      && key in st'.table
      && st'.table[key] == (if Exceeds(cfg, counted) then Slot(slot0.path, -1, slot0.index + 1)
                            else Slot(slot0.path, counted, slot0.index))
      && (forall k :: k != key ==> (k in st'.table <==> k in st.table) && (k in st.table ==> st'.table[k] == st.table[k]))
      && RowOf(rec, st'.outNames, show).Some?
      && st'.files == st.files[slot0.path := FileOr(st.files, slot0.path) + [RowOf(rec, st'.outNames, show).value]]
      && st'.starting == st.starting && st'.rowCount == st.rowCount && st'.fileCount == st.fileCount
  {
  }

  /** The partitioned invariant is kept by every record. */
  lemma PartKeepsInv(cfg: OutConfig, show: Value -> string, garbage: string -> bool, st: OutState, rec: Record)
    requires cfg.kind == DelimOutput && cfg.partition.Some? && ValidConfig(cfg)
    requires PartInv(cfg, st)
    requires Step(cfg, show, garbage, st, rec).Ok?
    ensures PartInv(cfg, Step(cfg, show, garbage, st, rec).value)
  {
    PartStep(cfg, show, garbage, st, rec);
    var st' := Step(cfg, show, garbage, st, rec).value;
    forall k | k in st'.table
      ensures -1 <= st'.table[k].count && st'.table[k].path in st'.files
      ensures cfg.splitFile.Some? ==> st'.table[k].count as real <= cfg.splitFile.value
    {
      if k in st.table && k != DictKey(Get(rec, cfg.partition.value).value) {
        assert st.table[k].path in st'.files;
      }
    }
  }

  /** With a partition, the first record fixes out_names without the
      partition field, and a record without that field ends the read;
      the partitioned output never clears starting, so every record is
      checked (TFRECORDS output clears it once its writer is open). */
  lemma PartitionNames(cfg: OutConfig, show: Value -> string, garbage: string -> bool, st: OutState, rec: Record)
    requires cfg.partition.Some? && st.starting
    ensures cfg.partition.value !in Keys(rec) ==> Step(cfg, show, garbage, st, rec) == Err(PartitionMissing)
    ensures Step(cfg, show, garbage, st, rec).Ok? ==>
      cfg.partition.value in Keys(rec)
      && Step(cfg, show, garbage, st, rec).value.outNames == Without(Keys(rec), cfg.partition.value)
      && (cfg.kind != RecordsOutput ==> Step(cfg, show, garbage, st, rec).value.starting)
  {
  }

  /** LIST, NUMPY and PANDAS output: the record's values, all of them and in
      order, are appended to the result; no file is touched. */
  lemma ListStep(cfg: OutConfig, show: Value -> string, garbage: string -> bool, st: OutState, rec: Record)
    requires cfg.kind == ListOutput && cfg.partition.None?
    ensures Step(cfg, show, garbage, st, rec).Ok?
    ensures var st' := Step(cfg, show, garbage, st, rec).value;
      st'.collected == st.collected + [FieldValues(rec)]
      && st'.files == st.files && st'.table == st.table && st'.starting == st.starting
  {
  }
  // ---------------------------------------------------------------------------
  // The output as the reader holds it

  /** [r for r in names if r != p] */
  method FilterOut(names: seq<string>, p: string) returns (r: seq<string>)
    ensures r == Without(names, p)
  {
    r := [];
    var i := 0;
    while i < |names|
      invariant 0 <= i <= |names|
      invariant Without(names, p) == r + Without(names[i..], p)
      decreases |names| - i
    {
      assert names[i..][1..] == names[i + 1..];
      if names[i] != p {
        r := r + [names[i]];
      }
      i := i + 1;
    }
    assert names[i..] == [];
  }

  /** The field texts of one output line, field by field; None for the
      KeyError of a name the record lacks. */
  method RenderRow(rec: Record, names: seq<string>, show: Value -> string) returns (row: Option<seq<string>>)
    ensures row == RowOf(rec, names, show)
  {
    var acc: seq<string> := [];
    var i := 0;
    while i < |names|
      invariant 0 <= i <= |names|
      invariant RowOf(rec, names, show).Some? <==> RowOf(rec, names[i..], show).Some?
      invariant RowOf(rec, names, show).Some? ==> RowOf(rec, names, show).value == acc + RowOf(rec, names[i..], show).value
      decreases |names| - i
    {
      assert names[i..][1..] == names[i + 1..];
      var v := Get(rec, names[i]);
      if v.None? {
        return None;
      }
      acc := acc + [show(v.value)];
      i := i + 1;
    }
    assert names[i..] == [];
    assert acc + [] == acc;
    return Some(acc);
  }

  /** The reader's output state: out_names and starting, the rotation
      counters and open file of an unpartitioned output, outfile_dict of a
      partitioned one, output_data, and the files written. */
  class Output {
    const cfg: OutConfig
    const show: Value -> string
    const garbage: string -> bool
    var starting: bool
    var outNames: seq<string>
    var rowCount: int
    var fileCount: nat
    var opf: string
    var files: map<string, seq<seq<string>>>
    var table: map<Value, Slot>
    var collected: seq<seq<Value>>

    function State(): OutState
      reads this
    {
      OutState(starting, outNames, rowCount, fileCount, opf, files, table, collected)
    }

    constructor(cfg: OutConfig, show: Value -> string, garbage: string -> bool)
      ensures this.cfg == cfg && this.show == show && this.garbage == garbage
      ensures State() == Initial()
    {
      this.cfg := cfg;
      this.show := show;
      this.garbage := garbage;
      starting := true;
      outNames := [];
      rowCount := 0;
      fileCount := 0;
      opf := "";
      files := map[];
      table := map[];
      collected := [];
    }

    /** Send one kept record to the output. On an error nothing changes
        (the partly written line of a failing record is not modelled). */
    method Emit(rec: Record) returns (err: Option<OutError>)
      modifies this
      ensures match Step(cfg, show, garbage, old(State()), rec)
        case Ok(st) => err.None? && State() == st
        case Err(e) => err == Some(e) && State() == old(State())
    {
      var names := outNames;
      if starting {
        names := Keys(rec);
        if cfg.partition.Some? {
          if cfg.partition.value !in names {
            return Some(PartitionMissing);
          }
          names := FilterOut(names, cfg.partition.value);
        }
      }
      if cfg.kind == ListOutput {
        outNames := names;
        collected := collected + [FieldValues(rec)];
        return None;
      }
      if cfg.kind == RecordsOutput {
        outNames := names;
        starting := false;
        return None;
      }
      if cfg.partition.None? {
        assert Step(cfg, show, garbage, State(), rec) == WritePlain(cfg, show, garbage, State().(outNames := names), names, rec);
        err := EmitPlain(rec, names);
      } else {
        assert Step(cfg, show, garbage, State(), rec) == WritePart(cfg, show, garbage, State().(outNames := names), cfg.partition.value, names, rec);
        err := EmitPart(rec, names);
      }
    }

    /** The file an unpartitioned row goes to: the open one, or when
        starting the next one opened in mode "w". */
    method PlainTarget(names: seq<string>) returns (t: Result<(string, int, nat, seq<seq<string>>), OutError>)
      ensures var o := OpenPlain(cfg, garbage, State().(outNames := names), names);
        (t.Err? <==> o.Err?) && (t.Err? ==> t.error == o.error)
        && (t.Ok? ==> t.value.0 == o.value.opf && t.value.1 == o.value.rowCount && t.value.2 == o.value.fileCount
                      && t.value.3 == FileOr(o.value.files, t.value.0)
                      && o.value.files[t.value.0 := t.value.3] == files[t.value.0 := t.value.3]
                      && o.value.outNames == names && o.value.collected == collected && o.value.table == table)
    {
      if !starting {
        return Ok((opf, rowCount, fileCount, FileOr(files, opf)));
      }
      if cfg.outputFile.None? {
        return Err(CannotOpen);
      }
      if cfg.splitFile.None? {
        return Ok((cfg.outputFile.value, 0, fileCount, Header(cfg, names)));
      }
      var named := MakeOpf(cfg.outputFile.value, None, Some(fileCount), garbage);
      if named.None? {
        return Err(CannotOpen);
      }
      return Ok((named.value, 0, fileCount + 1, Header(cfg, names)));
    }

    method EmitPlain(rec: Record, names: seq<string>) returns (err: Option<OutError>)
      requires cfg.kind == DelimOutput && cfg.partition.None?
      modifies this
      ensures var r := WritePlain(cfg, show, garbage, old(State()).(outNames := names), names, rec);
        (r.Ok? ==> err.None? && State() == r.value) && (r.Err? ==> err == Some(r.error) && State() == old(State()))
    {
      ghost var s1 := State().(outNames := names);
      var t := PlainTarget(names);
      if t.Err? {
        return Some(t.error);
      }
      var (path, count, fc, content) := t.value;
      ghost var o := OpenPlain(cfg, garbage, s1, names).value;
      var row := RenderRow(rec, names, show);
      if row.None? {
        return Some(MissingField);
      }
      ghost var after := o.(rowCount := count + 1, files := o.files[path := content + [row.value]], starting := Exceeds(cfg, count + 1));
      assert WritePlain(cfg, show, garbage, s1, names, rec) == Ok(after);
      assert after == OutState(Exceeds(cfg, count + 1), names, count + 1, fc, path, files[path := content + [row.value]], table, collected);
      outNames := names;
      opf := path;
      fileCount := fc;
      rowCount := count + 1;
      files := files[path := content + [row.value]];
      starting := Exceeds(cfg, count + 1);
      return None;
    }

    /** The slot of a partition value, opened or reopened when needed. */
    method PartSlot(key: Value, dir: string) returns (r: Option<Slot>)
      ensures r == OpenSlot(cfg, garbage, table, key, dir)
    {
      if key in table {
        var slot := table[key];
        if slot.count >= 0 {
          return Some(slot);
        }
        var path := PartPath(cfg, garbage, dir, Some(slot.index));
        if path.None? {
          return None;
        }
        return Some(Slot(path.value, 0, slot.index));
      }
      var path := PartPath(cfg, garbage, dir, if cfg.splitFile.Some? then Some(0) else None);
      if path.None? {
        return None;
      }
      return Some(Slot(path.value, 0, 0));
    }

    method EmitPart(rec: Record, names: seq<string>) returns (err: Option<OutError>)
      requires cfg.kind == DelimOutput && cfg.partition.Some?
      modifies this
      ensures var r := WritePart(cfg, show, garbage, old(State()).(outNames := names), cfg.partition.value, names, rec);
        (r.Ok? ==> err.None? && State() == r.value) && (r.Err? ==> err == Some(r.error) && State() == old(State()))
    {
      var p := cfg.partition.value;
      var key := Get(rec, p);
      if key.None? {
        return Some(PartitionMissing);
      }
      var dir := p + "=" + show(key.value);
      var found := PartSlot(DictKey(key.value), dir);
      if found.None? {
        return Some(BadPath);
      }
      var slot := found.value;
      var row := RenderRow(rec, names, show);
      if row.None? {
        return Some(MissingField);
      }
      ghost var s0 := old(State()).(outNames := names);
      assert WritePart(cfg, show, garbage, s0, p, names, rec)
          == Ok(s0.(table := s0.table[DictKey(key.value) := PartNext(cfg, slot)],
                    files := s0.files[slot.path := FileOr(s0.files, slot.path) + [row.value]]));
      var counted := slot.count + 1;
      if Exceeds(cfg, counted) {
        slot := Slot(slot.path, -1, slot.index + 1);
      } else {
        slot := Slot(slot.path, counted, slot.index);
      }
      outNames := names;
      table := table[DictKey(key.value) := slot];
      files := files[slot.path := FileOr(files, slot.path) + [row.value]];
      return None;
    }
  }
}
