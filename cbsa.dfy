/** The ZIP-to-CBSA add-on (PopulateCBSAData): a table of ZIP codes, sorted
    for binary search, with each ZIP's CBSA code, state and CBSA name, and
    three user-class methods that write their answers into the record
    they are given, in place. */
module Cbsa {
  import opened Common
  import opened Values
  import Decode
  import Reader

  /** One line of the ZIP table: zip, CBSA code, state, CBSA name. The
      four columns the class keeps are parallel arrays, one entry per line
      of the table file, so they are modelled as one sequence of lines. */
  datatype Entry = Entry(zip: string, code: string, state: string, name: string)

  /** The zip column as numpy holds it: an array of str. */
  function ZipColumn(t: seq<Entry>): (r: seq<Value>)
    ensures |r| == |t| && forall i :: 0 <= i < |t| ==> r[i] == Text(t[i].zip)
  {
    seq(|t|, i requires 0 <= i < |t| => Text(t[i].zip))
  }

  /** Where a zip value sits in the table: at a row, absent, or not
      searchable at all (a value that is not text raises in the search or
      the comparison, and the method's except branch runs). */
  datatype Probe = Absent | Found(row: nat) | Raises

  /** np.searchsorted on the zip column followed by the exact-match test. */
  function Locate(t: seq<Entry>, v: Value): (r: Probe)
    ensures r.Found? ==> r.row < |t| && v == Text(t[r.row].zip)
    ensures r == Raises <==> !v.Text?
  {
    match v
    case Text(z) =>
      var i := SearchSorted(ZipColumn(t), v);
      if i < |t| && t[i].zip == z then Found(i) else Absent
    case _ => Raises
  }

  /** The first table line holding zip z, by a scan from the top. */
  function FirstWith(t: seq<Entry>, z: string): (r: Option<nat>)
    ensures r.Some? ==> r.value < |t| && t[r.value].zip == z
                        && forall j :: 0 <= j < r.value ==> t[j].zip != z
    ensures r.None? ==> forall j :: 0 <= j < |t| ==> t[j].zip != z
  {
    if t == [] then None
    else if t[0].zip == z then Some(0)
    else match FirstWith(t[1..], z)
      case None => None
      case Some(i) => Some(i + 1)
  }

  /** On a table sorted by zip, the binary search finds exactly what a scan
      from the top finds: the first line with that zip, or nothing. */
  lemma LocateAgrees(t: seq<Entry>, z: string)
    requires Sorted(ZipColumn(t))
    ensures Locate(t, Text(z)) == match FirstWith(t, z) case Some(k) => Found(k) case None => Absent
  {
    var col := ZipColumn(t);
    var i := SearchSorted(col, Text(z));
    SearchSortedSplits(col, Text(z));
    SearchSortedFinds(col, Text(z));
    match FirstWith(t, z)
    case None =>
    case Some(k) =>
      assert col[k] == Text(z);
      BeforeIrreflexive(Text(z));
      assert i <= k;
      assert t[i].zip == z;
  }

  // ---------------------------------------------------------------------------
  // What each method leaves in the record

  /** zip_state_agree's verdict: both fields present and not None, the zip
      in the table, and the state equal to that line's state. */
  predicate ZipStateOk(t: seq<Entry>, fx: Record) {
    match (Get(fx, "zip"), Get(fx, "state"))
    case (Some(zip), Some(state)) =>
      zip != NoValue && state != NoValue
      && (match Locate(t, zip)
          case Found(i) => state == Text(t[i].state)
          case _ => false)
    case _ => false
  }

  function ZipStateAgreed(t: seq<Entry>, fx: Record): Record {
    Set(fx, "zip_ok", Bool(ZipStateOk(t, fx)))
  }

  /** The try block of cbsa_code: the code of the zip's line when it has
      one; None for a zip that is None, not text, missing from the record
      or absent from the table, and in that last case the name is cleared
      as well. */
  function WithCode(t: seq<Entry>, fx: Record): Record {
    match Get(fx, "zip")
    case None => Set(fx, "cbsa_code", NoValue)
    case Some(zip) =>
      if zip == NoValue then Set(fx, "cbsa_code", NoValue)
      else match Locate(t, zip)
        case Found(i) => Set(fx, "cbsa_code", Text(t[i].code))
        case Absent => Set(Set(fx, "cbsa_code", NoValue), "cbsa_name", NoValue)
        case Raises => Set(fx, "cbsa_code", NoValue)
  }

  /** The try block of cbsa_code_and_name: code and name of the zip's line,
      or None for both. */
  function WithCodeAndName(t: seq<Entry>, fx: Record): Record {
    var zip := Get(fx, "zip");
    var probe := if zip.Some? && zip.value != NoValue then Locate(t, zip.value) else Raises;
    match probe
    case Found(i) => Set(Set(fx, "cbsa_code", Text(t[i].code)), "cbsa_name", Text(t[i].name))
    case _ => Set(Set(fx, "cbsa_code", NoValue), "cbsa_name", NoValue)
  }

  function CodeOf(t: seq<Entry>, checkState: bool, fx: Record): Record {
    WithCode(t, if checkState then ZipStateAgreed(t, fx) else fx)
  }

  function CodeAndNameOf(t: seq<Entry>, checkState: bool, fx: Record): Record {
    WithCodeAndName(t, if checkState then ZipStateAgreed(t, fx) else fx)
  }

  /** The table line a record's zip selects: the first line with that zip,
      when the zip is text. */
  function RowOf(t: seq<Entry>, fx: Record): Option<nat> {
    var zip := Get(fx, "zip");
    if zip.Some? && zip.value.Text? then FirstWith(t, zip.value.s) else None
  }

  /** zip_ok is true exactly when the record's zip is text, the table holds
      it, and the record's state is the state of the zip's first line;
      only zip_ok changes. */
  lemma ZipStateMeans(t: seq<Entry>, fx: Record)
    requires Sorted(ZipColumn(t))
    ensures var r := ZipStateAgreed(t, fx);
      var row := RowOf(t, fx);
      (ZipStateOk(t, fx) <==> row.Some? && Get(fx, "state") == Some(Text(t[row.value].state)))
      && Get(r, "zip_ok") == Some(Bool(ZipStateOk(t, fx)))
      && forall k :: k != "zip_ok" ==> Get(r, k) == Get(fx, k)
  {
    var zip := Get(fx, "zip");
    if zip.Some? && zip.value.Text? {
      LocateAgrees(t, zip.value.s);
    }
    forall k | true
      ensures Get(ZipStateAgreed(t, fx), k) == if k == "zip_ok" then Some(Bool(ZipStateOk(t, fx))) else Get(fx, k)
    {
      GetSet(fx, "zip_ok", Bool(ZipStateOk(t, fx)), k);
    }
  }

  lemma CodeFields(t: seq<Entry>, fx: Record)
    requires Sorted(ZipColumn(t))
    ensures var r := WithCode(t, fx);
      var zip := Get(fx, "zip");
      var row := RowOf(t, fx);
      Get(r, "cbsa_code") == (if row.Some? then Some(Text(t[row.value].code)) else Some(NoValue))
      && Get(r, "cbsa_name") == (if zip.Some? && zip.value.Text? && row.None? then Some(NoValue)
                                 else Get(fx, "cbsa_name"))
      && forall k :: k != "cbsa_code" && k != "cbsa_name" ==> Get(r, k) == Get(fx, k)
  {
    var zip := Get(fx, "zip");
    if zip.Some? && zip.value.Text? {
      LocateAgrees(t, zip.value.s);
    }
    var code := Get(WithCode(t, fx), "cbsa_code");
    forall k | true
      ensures Get(Set(fx, "cbsa_code", NoValue), k) == if k == "cbsa_code" then Some(NoValue) else Get(fx, k)
      ensures Get(Set(Set(fx, "cbsa_code", NoValue), "cbsa_name", NoValue), k)
              == if k == "cbsa_name" then Some(NoValue) else Get(Set(fx, "cbsa_code", NoValue), k)
    {
      GetSet(fx, "cbsa_code", NoValue, k);
      GetSet(Set(fx, "cbsa_code", NoValue), "cbsa_name", NoValue, k);
    }
    var p := if zip.Some? && zip.value != NoValue then Locate(t, zip.value) else Raises;
    if p.Found? {
      forall k | true
        ensures Get(Set(fx, "cbsa_code", Text(t[p.row].code)), k)
                == if k == "cbsa_code" then Some(Text(t[p.row].code)) else Get(fx, k)
      {
        GetSet(fx, "cbsa_code", Text(t[p.row].code), k);
      }
    }
  }

  /** cbsa_code: with check_state, zip_ok is set as zip_state_agree sets it;
      cbsa_code is the code of the zip's first line, or None; cbsa_name is
      cleared only for a text zip the table lacks; nothing else changes. */
  lemma CodeMeans(t: seq<Entry>, checkState: bool, fx: Record)
    requires Sorted(ZipColumn(t))
    ensures var r := CodeOf(t, checkState, fx);
      var zip := Get(fx, "zip");
      var row := RowOf(t, fx);
      Get(r, "cbsa_code") == (if row.Some? then Some(Text(t[row.value].code)) else Some(NoValue))
      && Get(r, "cbsa_name") == (if zip.Some? && zip.value.Text? && row.None? then Some(NoValue)
                                 else Get(fx, "cbsa_name"))
      && Get(r, "zip_ok") == (if checkState then Some(Bool(ZipStateOk(t, fx))) else Get(fx, "zip_ok"))
      && forall k :: k != "cbsa_code" && k != "cbsa_name" && k != "zip_ok" ==> Get(r, k) == Get(fx, k)
  {
    var fx' := if checkState then ZipStateAgreed(t, fx) else fx;
    var ok := Bool(ZipStateOk(t, fx));
    if checkState {
      GetSet(fx, "zip_ok", ok, "zip");
      GetSet(fx, "zip_ok", ok, "cbsa_name");
      GetSet(fx, "zip_ok", ok, "zip_ok");
    }
    assert RowOf(t, fx') == RowOf(t, fx);
    CodeFields(t, fx');
    forall k | k != "cbsa_code" && k != "cbsa_name" && k != "zip_ok"
      ensures Get(CodeOf(t, checkState, fx), k) == Get(fx, k)
    {
      GetSet(fx, "zip_ok", ok, k);
    }
  }

  lemma CodeAndNameFields(t: seq<Entry>, fx: Record)
    requires Sorted(ZipColumn(t))
    ensures var r := WithCodeAndName(t, fx);
      var row := RowOf(t, fx);
      Get(r, "cbsa_code") == (if row.Some? then Some(Text(t[row.value].code)) else Some(NoValue))
      && Get(r, "cbsa_name") == (if row.Some? then Some(Text(t[row.value].name)) else Some(NoValue))
      && forall k :: k != "cbsa_code" && k != "cbsa_name" ==> Get(r, k) == Get(fx, k)
  {
    var zip := Get(fx, "zip");
    if zip.Some? && zip.value.Text? {
      LocateAgrees(t, zip.value.s);
    }
    var p := if zip.Some? && zip.value != NoValue then Locate(t, zip.value) else Raises;
    var code := if p.Found? then Text(t[p.row].code) else NoValue;
    var name := if p.Found? then Text(t[p.row].name) else NoValue;
    assert WithCodeAndName(t, fx) == Set(Set(fx, "cbsa_code", code), "cbsa_name", name);
    forall k | true
      ensures Get(Set(Set(fx, "cbsa_code", code), "cbsa_name", name), k)
              == if k == "cbsa_name" then Some(name) else if k == "cbsa_code" then Some(code) else Get(fx, k)
    {
      GetSet(Set(fx, "cbsa_code", code), "cbsa_name", name, k);
      GetSet(fx, "cbsa_code", code, k);
    }
  }

  /** cbsa_code_and_name: code and name both come from the zip's first
      line, or are both None; with check_state zip_ok is set too; nothing
      else changes. */
  lemma CodeAndNameMeans(t: seq<Entry>, checkState: bool, fx: Record)
    requires Sorted(ZipColumn(t))
    ensures var r := CodeAndNameOf(t, checkState, fx);
      var row := RowOf(t, fx);
      Get(r, "cbsa_code") == (if row.Some? then Some(Text(t[row.value].code)) else Some(NoValue))
      && Get(r, "cbsa_name") == (if row.Some? then Some(Text(t[row.value].name)) else Some(NoValue))
      && Get(r, "zip_ok") == (if checkState then Some(Bool(ZipStateOk(t, fx))) else Get(fx, "zip_ok"))
      && forall k :: k != "cbsa_code" && k != "cbsa_name" && k != "zip_ok" ==> Get(r, k) == Get(fx, k)
  {
    var fx' := if checkState then ZipStateAgreed(t, fx) else fx;
    var ok := Bool(ZipStateOk(t, fx));
    if checkState {
      GetSet(fx, "zip_ok", ok, "zip");
      GetSet(fx, "zip_ok", ok, "zip_ok");
    }
    assert RowOf(t, fx') == RowOf(t, fx);
    CodeAndNameFields(t, fx');
    forall k | k != "cbsa_code" && k != "cbsa_name" && k != "zip_ok"
      ensures Get(CodeAndNameOf(t, checkState, fx), k) == Get(fx, k)
    {
      GetSet(fx, "zip_ok", ok, k);
    }
  }

  /** The two fields cbsa_code_and_name adds go after the record's own
      fields, code first, so they become the last two output columns. */
  lemma CodeAndNameColumns(t: seq<Entry>, fx: Record)
    requires "cbsa_code" !in Keys(fx) && "cbsa_name" !in Keys(fx)
    ensures Keys(CodeAndNameOf(t, false, fx)) == Keys(fx) + ["cbsa_code", "cbsa_name"]
  {
    var zip := Get(fx, "zip");
    var p := if zip.Some? && zip.value != NoValue then Locate(t, zip.value) else Raises;
    var code := if p.Found? then Text(t[p.row].code) else NoValue;
    var name := if p.Found? then Text(t[p.row].name) else NoValue;
    assert CodeAndNameOf(t, false, fx) == Set(Set(fx, "cbsa_code", code), "cbsa_name", name);
    KeysSet(fx, "cbsa_code", code);
    KeysSet(Set(fx, "cbsa_code", code), "cbsa_name", name);
  }

  // ---------------------------------------------------------------------------
  // The user class

  /** fx_out as a user method receives it: a dict it changes in place. */
  class Fields {
    var entries: Record

    constructor(r: Record)
      ensures entries == r
    {
      entries := r;
    }
  }

  /** PopulateCBSAData: the table read from the package's data file (the
      reading itself is not modelled) and the check_state setting. */
  class PopulateCbsa {
    const table: seq<Entry>
    const checkState: bool

    constructor(table: seq<Entry>, checkState: bool)
      ensures this.table == table && this.checkState == checkState
    {
      this.table := table;
      this.checkState := checkState;
    }

    /** zip_state_agree: zip_ok is set to True, then to False on any
        failure. */
    method ZipStateAgree(fx: Fields)
      modifies fx
      ensures fx.entries == ZipStateAgreed(table, old(fx.entries))
    {
      ghost var fx0 := fx.entries;
      fx.entries := Set(fx.entries, "zip_ok", Bool(true));
      GetSet(fx0, "zip_ok", Bool(true), "zip");
      GetSet(fx0, "zip_ok", Bool(true), "state");
      SetSet(fx0, "zip_ok", Bool(true), Bool(false));
      var zip := Get(fx.entries, "zip");
      var state := Get(fx.entries, "state");
      if zip.None? || state.None? {
        // a KeyError
        fx.entries := Set(fx.entries, "zip_ok", Bool(false));
        return;
      }
      if zip.value == NoValue || state.value == NoValue {
        fx.entries := Set(fx.entries, "zip_ok", Bool(false));
        return;
      }
      if !zip.value.Text? {
        // the search raises
        fx.entries := Set(fx.entries, "zip_ok", Bool(false));
        return;
      }
      var chk := SearchSorted(ZipColumn(table), zip.value);
      if chk >= |table| || zip.value != Text(table[chk].zip) {
        fx.entries := Set(fx.entries, "zip_ok", Bool(false));
      } else if state.value != Text(table[chk].state) {
        fx.entries := Set(fx.entries, "zip_ok", Bool(false));
      }
    }

    /** cbsa_code: always keeps the row. */
    method CbsaCode(fx: Fields) returns (keep: bool)
      modifies fx
      ensures keep && fx.entries == CodeOf(table, checkState, old(fx.entries))
    {
      if checkState {
        ZipStateAgree(fx);
      }
      var zip := Get(fx.entries, "zip");
      if zip.None? || !zip.value.Text? {
        // None, a KeyError, or a value the search raises on
        fx.entries := Set(fx.entries, "cbsa_code", NoValue);
        return true;
      }
      var chk := SearchSorted(ZipColumn(table), zip.value);
      if chk >= |table| || zip.value != Text(table[chk].zip) {
        fx.entries := Set(fx.entries, "cbsa_code", NoValue);
        fx.entries := Set(fx.entries, "cbsa_name", NoValue);
      } else {
        fx.entries := Set(fx.entries, "cbsa_code", Text(table[chk].code));
      }
      return true;
    }

    /** cbsa_code_and_name: always keeps the row. */
    method CbsaCodeAndName(fx: Fields) returns (keep: bool)
      modifies fx
      ensures keep && fx.entries == CodeAndNameOf(table, checkState, old(fx.entries))
    {
      if checkState {
        ZipStateAgree(fx);
      }
      var zip := Get(fx.entries, "zip");
      if zip.None? || !zip.value.Text? {
        fx.entries := Set(fx.entries, "cbsa_code", NoValue);
        fx.entries := Set(fx.entries, "cbsa_name", NoValue);
        return true;
      }
      var chk := SearchSorted(ZipColumn(table), zip.value);
      if chk >= |table| || zip.value != Text(table[chk].zip) {
        fx.entries := Set(fx.entries, "cbsa_code", NoValue);
        fx.entries := Set(fx.entries, "cbsa_name", NoValue);
      } else {
        fx.entries := Set(fx.entries, "cbsa_code", Text(table[chk].code));
        fx.entries := Set(fx.entries, "cbsa_name", Text(table[chk].name));
      }
      return true;
    }
  }

  // ---------------------------------------------------------------------------
  // The class as the reader's user method

  /** user_method = 'cbsa_code': the row is kept and leaves with its code. */
  function CodeHook(t: seq<Entry>, checkState: bool): Reader.Hook {
    fx => (true, CodeOf(t, checkState, fx))
  }

  /** Read with cbsa_code as the user method and no user function, every
      record the reader passes on carries a cbsa_code field. */
  lemma {:induction false} KeptCarryCode(job: Reader.Job, t: seq<Entry>, checkState: bool,
                                         indices: seq<nat>, events: seq<Reader.RowEvent>)
    requires |indices| == |job.rules|
    requires job.userFunction.None? && job.userMethod.Some?
    requires forall fx :: job.userMethod.value(fx) == CodeHook(t, checkState)(fx)
    ensures forall i :: 0 <= i < |Reader.Kept(job, indices, events)| ==>
      "cbsa_code" in Keys(Reader.Kept(job, indices, events)[i])
    decreases |events|
  {
    if events != [] {
      KeptCarryCode(job, t, checkState, indices, events[1..]);
      var rest := Reader.Kept(job, indices, events[1..]);
      var d := Decode.DecodeRow(job.rules, events[0].cols, indices, job.removeChar, job.parseFloat);
      if events[0].eligible && d.Ok? {
        var rec := d.value.0;
        var fx' := if checkState then ZipStateAgreed(t, rec) else rec;
        var code := Get(CodeOf(t, checkState, rec), "cbsa_code");
        CodeHas(t, fx');
        assert Reader.Hooks(job, rec) == (true, CodeOf(t, checkState, rec));
      }
    }
  }

  /** cbsa_code is always written. */
  lemma CodeHas(t: seq<Entry>, fx: Record)
    ensures "cbsa_code" in Keys(WithCode(t, fx))
  {
    var zip := Get(fx, "zip");
    var p := if zip.Some? && zip.value != NoValue then Locate(t, zip.value) else Raises;
    var code := if p.Found? then Text(t[p.row].code) else NoValue;
    GetSet(fx, "cbsa_code", code, "cbsa_code");
    GetPresent(Set(fx, "cbsa_code", code), "cbsa_code");
    if p == Absent {
      GetSet(Set(fx, "cbsa_code", NoValue), "cbsa_name", NoValue, "cbsa_code");
      GetPresent(Set(Set(fx, "cbsa_code", NoValue), "cbsa_name", NoValue), "cbsa_code");
    }
  }
}
