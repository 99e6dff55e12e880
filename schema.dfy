/** BuildDataDictionary: the schema builder. add_field validates one field
    description and appends it to an index-keyed dictionary, counting the
    fields that carry a fixed-width position. */
module Schema {
  import opened Common
  import opened Calendar

  // ---------------------------------------------------------------------------
  // Python objects handed to add_field

  /** An argument as add_field sees it: only the name of its type and, for
      numbers and strings, its value matter to the builder. */
  datatype PyObj =
    | PyInt(typeName: string, i: int)       // int, bool, numpy integer scalars
    | PyFloat(typeName: string, x: real)    // float, numpy floating scalars (finite)
    | PyStr(typeName: string, s: string)    // str, numpy.str_
    | PyOther(typeName: string)             // list, ndarray, Series, date, ...

  /** str(type(value)).upper() */
  function TypeRepr(v: PyObj): string {
    Upper("<class '" + v.typeName + "'>")
  }

  /** int(value); None for the exception int() raises. */
  function IntOf(v: PyObj): Option<int> {
    match v
    case PyInt(_, i) => Some(i)
    case PyFloat(_, x) => Some(Trunc(x))
    case PyStr(_, s) => ParseInt(s)
    case PyOther(_) => None
  }

  // ---------------------------------------------------------------------------
  // The date-literal validator of __check_type

  /** value[5:].strip(')').split(',') with its first three pieces read by
      int(); None when a piece is missing or is not an integer. */
  function LiteralParts(s: string): Option<(int, int, int)> {
    var tmp := Split(Strip(Slice(s, 5, |s|), ')'), ',');
    if |tmp| < 3 then None
    else match (ParseInt(tmp[0]), ParseInt(tmp[1]), ParseInt(tmp[2]))
      case (Some(y), Some(m), Some(d)) => Some((y, m, d))
      case _ => None
  }

  predicate HasDatePrefix(s: string) {
    Upper(Slice(s, 0, 5)) == "DATE("
  }

  /** The literal check as written: year in 1900..2200, month in 1..12, day
      in 1..31, day 31 refused in months 2, 4, 6, 9, 11, February 30
      refused, and February 29 refused only when the year is not a multiple
      of four. */
  predicate DateLiteralAsWritten(s: string) {
    HasDatePrefix(s) &&
    match LiteralParts(s)
    case None => false
    case Some((yr, mo, day)) =>
      1900 <= yr <= 2200 && 1 <= mo <= 12 && 1 <= day <= 31
      && !((mo == 2 || mo == 4 || mo == 6 || mo == 9 || mo == 11) && day == 31)
      && !(mo == 2 && day == 30)
      && !(mo == 2 && yr % 4 != 0 && day == 29)
  }

  /** The literal check as intended: the three numbers name a real calendar
      day of a year in 1900..2200. */
  predicate DateLiteralOk(s: string) {
    HasDatePrefix(s) &&
    match LiteralParts(s)
    case None => false
    case Some((yr, mo, day)) => 1900 <= yr <= 2200 && MakeDate(yr, mo, day).Some?
  }

  /** The two checks differ on exactly one kind of literal: February 29 of a
      century year that is not a multiple of 400 (1900, 2100, 2200), which
      the written check accepts and the calendar refuses. */
  lemma DateLiteralDifference(s: string)
    ensures DateLiteralOk(s) ==> DateLiteralAsWritten(s)
    ensures DateLiteralAsWritten(s) && !DateLiteralOk(s) <==>
      HasDatePrefix(s) && LiteralParts(s).Some? &&
      var (yr, mo, day) := LiteralParts(s).value;
      mo == 2 && day == 29 && (yr == 1900 || yr == 2100 || yr == 2200)
  {
    if HasDatePrefix(s) && LiteralParts(s).Some? {
      var (yr, mo, day) := LiteralParts(s).value;
      if 1900 <= yr <= 2200 && mo == 2 && day == 29 {
        assert IsLeap(yr) <==> yr % 4 == 0 && yr != 1900 && yr != 2100 && yr != 2200;
      }
    }
  }

  lemma PiecesOf2100()
    ensures Split(Strip(Slice("DATE(2100,2,29)", 5, 15), ')'), ',') == ["2100", "2", "29"]
  {
    assert Slice("DATE(2100,2,29)", 5, 15) == "2100,2,29)";
    assert "2100,2,29)"[..9] == "2100,2,29";
    assert Strip("2100,2,29)", ')') == "2100,2,29";
    assert "2100,2,29" == "2100" + [','] + "2,29";
    assert "2,29" == "2" + [','] + "29";
    SplitAt("2100", "2,29", ',');
    SplitAt("2", "29", ',');
    SplitNoDelim("29", ',');
  }

  lemma ParseOf(n: nat, s: string)
    requires NatToString(n) == s
    ensures ParseInt(s) == Some(n)
  {
    ParseNatToString(n);
  }

  lemma NumbersOf2100()
    ensures ParseInt("2100") == Some(2100) && ParseInt("2") == Some(2) && ParseInt("29") == Some(29)
  {
    assert NatToString(2100) == "2100";
    ParseOf(2100, "2100");
    ParseOf(2, "2");
    ParseOf(29, "29");
  }

  lemma LiteralParts2100()
    ensures LiteralParts("DATE(2100,2,29)") == Some((2100, 2, 29))
  {
    PiecesOf2100();
    NumbersOf2100();
  }

  /** DATE(2100,2,29) passes the written check although 2100 is not a leap
      year. */
  lemma DateLiteralCenturyLeap()
    ensures DateLiteralAsWritten("DATE(2100,2,29)")
    ensures !DateLiteralOk("DATE(2100,2,29)")
  {
    LiteralParts2100();
    assert Upper("DATE(") == "DATE(";
  }

  // ---------------------------------------------------------------------------
  // __check_type

  /** __check_type(vartype, value): the upper-cased repr of the value's type
      contains vartype; FLOAT also takes integer types; DATE also takes a
      string that passes the written date-literal check, February 29 of
      1900, 2100 and 2200 included (see DateLiteralDifference). */
  predicate CheckType(vartype: string, v: PyObj) {
    Contains(TypeRepr(v), vartype)
    || (vartype == "FLOAT" && Contains(TypeRepr(v), "INT"))
    || (vartype == "DATE" && Contains(TypeRepr(v), "STR") && v.PyStr? && DateLiteralAsWritten(v.s))
  }

  /** A legal-value container must be a list, a pandas Series or an ndarray. */
  predicate ContainerOk(c: PyObj) {
    CheckType("LIST", c) || CheckType("PANDAS.CORE.SERIES.SERIES", c) || CheckType("NDARRAY", c)
  }

  // ---------------------------------------------------------------------------
  // Field descriptions

  const Actions: set<string> := {"FIX", "DROP", "FATAL"}
  const FieldTypes: set<string> := {"FLOAT", "INT", "STR", "BYTES", "DATE", "ZIP", "STATE", "STATETERR"}
  const DateFormats: set<string> :=
    {"CCYYMMDD", "CCYYMM", "YYMM", "MM/DD/CCYY", "MM/DD/YY", "MMDDCCYY", "MM/CCYY", "CCYY/MM/DD"}

  /** field_format.upper().strip('E').strip('B') names one of the eight
      layouts. */
  predicate FormatAccepted(fmt: string) {
    Strip(Strip(Upper(fmt), 'E'), 'B') in DateFormats
  }

  /** Legal values as handed over: the container, and the elements of the
      array built from it in the order legal_values.sort() leaves them. */
  datatype LegalArg = LegalArg(container: PyObj, items: seq<PyObj>)

  /** The arguments of add_field. */
  datatype FieldArgs = FieldArgs(
    name: string,
    fieldType: string,
    format: Option<string>,
    width: Option<PyObj>,
    start: Option<PyObj>,
    action: string,
    minimum: Option<PyObj>,
    minRepl: Option<PyObj>,
    maximum: Option<PyObj>,
    maxRepl: Option<PyObj>,
    legal: Option<LegalArg>,
    illegalRepl: Option<PyObj>)

  /** add_field(name) with every other argument at its default. */
  function DefaultArgs(name: string): FieldArgs {
    FieldArgs(name, "str", None, None, None, "fix", None, None, None, None, None, None)
  }

  /** Where a field's legal values come from: the caller's array, or the
      package's own tables (zips.dat, states.dat, territories.dat). */
  datatype LegalSource = Supplied(items: seq<PyObj>) | Builtin(files: seq<string>)

  /** One entry of the data dictionary. */
  datatype FieldEntry = FieldEntry(
    name: string,
    fieldType: string,
    format: Option<string>,
    width: Option<int>,
    start: Option<int>,
    action: string,
    minimum: Option<PyObj>,
    minRepl: Option<PyObj>,
    maximum: Option<PyObj>,
    maxRepl: Option<PyObj>,
    legal: Option<LegalSource>,
    illegalRepl: Option<PyObj>)

  datatype BuildError =
    | BadAction | BadType | FormatNotDate | BadFormat
    | WidthWithoutStart | WidthNotInt | WidthNotPositive
    | StartWithoutWidth | StartNotInt | StartNotPositive
    | BadMinimum | BadMaximum | BadMinReplacement | BadMaxReplacement
    | BadContainer | BadLegalValue
    | UnusedMaxReplacement | UnusedMinReplacement   // raised as Warning
    | MixedWidth

  /** The first twelve elements of the sorted array are checked for type. */
  predicate LeadingItemsTyped(ftype: string, items: seq<PyObj>) {
    forall i :: 0 <= i < |items| && i < 12 ==> CheckType(ftype, items[i])
  }

  function BuiltinTable(ftype: string): Option<LegalSource> {
    if ftype == "ZIP" then Some(Builtin(["zips.dat"]))
    else if ftype == "STATE" then Some(Builtin(["states.dat"]))
    else if ftype == "STATETERR" then Some(Builtin(["states.dat", "territories.dat"]))
    else None
  }

  function Typed(ftype: string, v: Option<PyObj>): bool {
    v.None? || CheckType(ftype, v.value)
  }

  /** Lines 370-386: the action, the type and the date format. */
  function NameError(a: FieldArgs): Option<BuildError> {
    var ftype := Upper(a.fieldType);
    if Upper(a.action) !in Actions then Some(BadAction)
    else if ftype !in FieldTypes then Some(BadType)
    else if a.format.Some? && ftype != "DATE" then Some(FormatNotDate)
    else if a.format.Some? && !FormatAccepted(a.format.value) then Some(BadFormat)
    else None
  }

  /** Lines 388-407: width and start come together, as positive integers. */
  function PositionError(a: FieldArgs): Option<BuildError> {
    if a.width.Some? && a.start.None? then Some(WidthWithoutStart)
    else if a.width.Some? && IntOf(a.width.value).None? then Some(WidthNotInt)
    else if a.width.Some? && IntOf(a.width.value).value < 1 then Some(WidthNotPositive)
    else if a.start.Some? && a.width.None? then Some(StartWithoutWidth)
    else if a.start.Some? && IntOf(a.start.value).None? then Some(StartNotInt)
    else if a.start.Some? && IntOf(a.start.value).value < 1 then Some(StartNotPositive)
    else None
  }

  /** Lines 409-441: bounds, replacements and legal values have the field's type. */
  function ValueError(a: FieldArgs): Option<BuildError> {
    var ftype := Upper(a.fieldType);
    if !Typed(ftype, a.minimum) then Some(BadMinimum)
    else if !Typed(ftype, a.maximum) then Some(BadMaximum)
    else if !Typed(ftype, a.minRepl) then Some(BadMinReplacement)
    else if !Typed(ftype, a.maxRepl) then Some(BadMaxReplacement)
    else if a.legal.Some? && !ContainerOk(a.legal.value.container) then Some(BadContainer)
    else if a.legal.Some? && !LeadingItemsTyped(ftype, a.legal.value.items) then Some(BadLegalValue)
    else None
  }

  /** Lines 458-462: FATAL and DROP never replace, so replacements are refused. */
  function ReplacementError(a: FieldArgs): Option<BuildError> {
    var action := Upper(a.action);
    if (action == "FATAL" || action == "DROP") && a.maxRepl.Some? then Some(UnusedMaxReplacement)
    else if (action == "FATAL" || action == "DROP") && a.minRepl.Some? then Some(UnusedMinReplacement)
    else None
  }

  /** The first failing check of add_field, in the order the source makes them. */
  function FirstError(a: FieldArgs): Option<BuildError> {
    if NameError(a).Some? then NameError(a)
    else if PositionError(a).Some? then PositionError(a)
    else if ValueError(a).Some? then ValueError(a)
    else ReplacementError(a)
  }

  /** The entry add_field stores: upper-cased type, action and format,
      integer width and start, and the builtin table for ZIP, STATE and
      STATETERR in place of any supplied legal values. */
  function MakeEntry(a: FieldArgs): FieldEntry {
    var ftype := Upper(a.fieldType);
    var legal :=
      if BuiltinTable(ftype).Some? then BuiltinTable(ftype)
      else if a.legal.Some? then Some(Supplied(a.legal.value.items))
      else None;
    FieldEntry(a.name, ftype, if a.format.Some? then Some(Upper(a.format.value)) else None,
               if a.width.Some? then IntOf(a.width.value) else None,
               if a.start.Some? then IntOf(a.start.value) else None,
               Upper(a.action), a.minimum, a.minRepl, a.maximum, a.maxRepl, legal, a.illegalRepl)
  }

  function Validate(a: FieldArgs): (r: Result<FieldEntry, BuildError>)
    ensures r.Ok? ==> r.value.name == a.name && r.value.fieldType in FieldTypes
                      && r.value.action in Actions
                      && r.value.illegalRepl == a.illegalRepl
                      && (r.value.width.Some? <==> r.value.start.Some?)
                      && (r.value.width.Some? <==> a.width.Some?)
                      && (r.value.width.Some? ==> r.value.width.value >= 1 && r.value.start.value >= 1)
                      && (r.value.format.Some? ==> r.value.fieldType == "DATE")
  {
    if FirstError(a).Some? then Err(FirstError(a).value) else Ok(MakeEntry(a))
  }

  /** Whether the call reaches the statement that bumps the fixed-width
      counter: it has a width, and the action, type and format checks
      before that statement pass. */
  predicate BumpsCounter(a: FieldArgs) {
    a.width.Some? && NameError(a).None?
  }

  /** The builder's state after a call, with the exception it raised. */
  datatype Outcome = Outcome(entries: seq<FieldEntry>, numWidthFields: nat, error: Option<BuildError>)

  /** add_field on a builder holding entries and counter n. A counted
      width survives a later failure, and a valid entry is appended before
      the all-or-none rule is checked. */
  function AddFieldSpec(entries: seq<FieldEntry>, n: nat, a: FieldArgs): (r: Outcome)
    ensures r.entries == entries || (Validate(a).Ok? && r.entries == entries + [Validate(a).value])
    ensures r.error.None? ==> Validate(a).Ok? && r.entries == entries + [Validate(a).value]
    ensures n <= r.numWidthFields <= n + 1
  {
    var n' := if BumpsCounter(a) then n + 1 else n;
    match Validate(a)
    case Err(e) => Outcome(entries, n', Some(e))
    case Ok(entry) =>
      var es := entries + [entry];
      Outcome(es, n', if n' > 0 && n' != |es| then Some(MixedWidth) else None)
  }

  /** The loop over the sorted legal values: each is type-checked, and the
      loop stops after the element at index 11. */
  method CheckLeadingItems(ftype: string, items: seq<PyObj>) returns (ok: bool)
    ensures ok <==> LeadingItemsTyped(ftype, items)
  {
    var ind := 0;
    while ind < |items|
      invariant 0 <= ind <= |items| && ind <= 11
      invariant forall i :: 0 <= i < ind ==> CheckType(ftype, items[i])
    {
      if !CheckType(ftype, items[ind]) { return false; }
      if ind > 10 { break; }
      ind := ind + 1;
    }
    return true;
  }

  // ---------------------------------------------------------------------------
  // The builder object

  class DataDictionaryBuilder {
    var entries: seq<FieldEntry>
    var numWidthFields: nat

    constructor ()
      ensures entries == [] && numWidthFields == 0
    {
      entries := [];
      numWidthFields := 0;
    }

    /** The dictionary property: None while no field has been added; the
        key of each entry is its position. */
    function Dictionary(): (d: Option<seq<FieldEntry>>)
      reads this
      ensures d.None? <==> |entries| == 0
      ensures d.Some? ==> d.value == entries
    {
      if |entries| > 0 then Some(entries) else None
    }

    method AddField(a: FieldArgs) returns (err: Option<BuildError>)
      modifies this
      ensures Outcome(entries, numWidthFields, err) == AddFieldSpec(old(entries), old(numWidthFields), a)
    {
      var action := Upper(a.action);
      if action !in Actions { return Some(BadAction); }
      var ftype := Upper(a.fieldType);
      if ftype !in FieldTypes { return Some(BadType); }
      var format := a.format;
      if format.Some? {
        format := Some(Upper(format.value));
        if ftype != "DATE" { return Some(FormatNotDate); }
        if Strip(Strip(format.value, 'E'), 'B') !in DateFormats { return Some(BadFormat); }
      }
      assert NameError(a).None?;

      var width: Option<int> := None;
      if a.width.Some? {
        numWidthFields := numWidthFields + 1;
        if a.start.None? { return Some(WidthWithoutStart); }
        width := IntOf(a.width.value);
        if width.None? { return Some(WidthNotInt); }
        if width.value < 1 { return Some(WidthNotPositive); }
      }
      var start: Option<int> := None;
      if a.start.Some? {
        if a.width.None? { return Some(StartWithoutWidth); }
        start := IntOf(a.start.value);
        if start.None? { return Some(StartNotInt); }
        if start.value < 1 { return Some(StartNotPositive); }
      }
      assert PositionError(a).None?;

      if !Typed(ftype, a.minimum) { return Some(BadMinimum); }
      if !Typed(ftype, a.maximum) { return Some(BadMaximum); }
      if !Typed(ftype, a.minRepl) { return Some(BadMinReplacement); }
      if !Typed(ftype, a.maxRepl) { return Some(BadMaxReplacement); }
      var legal: Option<LegalSource> := None;
      if a.legal.Some? {
        if !ContainerOk(a.legal.value.container) { return Some(BadContainer); }
        var typed := CheckLeadingItems(ftype, a.legal.value.items);
        if !typed { return Some(BadLegalValue); }
        legal := Some(Supplied(a.legal.value.items));
      }
      assert ValueError(a).None?;

      if BuiltinTable(ftype).Some? { legal := BuiltinTable(ftype); }
      if action == "FATAL" || action == "DROP" {
        if a.maxRepl.Some? { return Some(UnusedMaxReplacement); }
        if a.minRepl.Some? { return Some(UnusedMinReplacement); }
      }
      assert FirstError(a).None?;

      var entry := FieldEntry(a.name, ftype, format, width, start, action,
                              a.minimum, a.minRepl, a.maximum, a.maxRepl, legal, a.illegalRepl);
      assert entry == MakeEntry(a);
      entries := entries + [entry];
      if numWidthFields > 0 && numWidthFields != |entries| { return Some(MixedWidth); }
      return None;
    }
  }

  // ---------------------------------------------------------------------------
  // Properties of add_field

  /** Everything add_field demands of one field description, stated as a
      conjunction rather than as a sequence of checks. */
  predicate Admissible(a: FieldArgs) {
    var action := Upper(a.action);
    var ftype := Upper(a.fieldType);
    action in Actions && ftype in FieldTypes
    && (a.format.Some? ==> ftype == "DATE" && FormatAccepted(a.format.value))
    && (a.width.Some? <==> a.start.Some?)
    && (a.width.Some? ==> IntOf(a.width.value).Some? && IntOf(a.width.value).value >= 1
                          && IntOf(a.start.value).Some? && IntOf(a.start.value).value >= 1)
    && Typed(ftype, a.minimum) && Typed(ftype, a.maximum) && Typed(ftype, a.minRepl) && Typed(ftype, a.maxRepl)
    && (a.legal.Some? ==> ContainerOk(a.legal.value.container) && LeadingItemsTyped(ftype, a.legal.value.items))
    && ((action == "FATAL" || action == "DROP") ==> a.minRepl.None? && a.maxRepl.None?)
  }

  /** A field description passes every check exactly when it is admissible;
      the illegal replacement value and the field name are never examined. */
  lemma ValidateIff(a: FieldArgs, name: string, illegal: Option<PyObj>)
    ensures Validate(a).Ok? <==> Admissible(a)
    ensures Validate(a.(name := name, illegalRepl := illegal)).Ok? == Validate(a).Ok?
  {
  }

  /** An unknown action or type leaves the builder exactly as it was. */
  lemma BadNamesChangeNothing(es: seq<FieldEntry>, n: nat, a: FieldArgs)
    requires Upper(a.action) !in Actions || Upper(a.fieldType) !in FieldTypes
    ensures AddFieldSpec(es, n, a).entries == es && AddFieldSpec(es, n, a).numWidthFields == n
    ensures AddFieldSpec(es, n, a).error == Some(if Upper(a.action) !in Actions then BadAction else BadType)
  {
  }

  /** A width without a start is refused, but the width has already been
      counted and the count is not taken back. */
  lemma WidthCountedBeforeStartCheck(es: seq<FieldEntry>, n: nat, a: FieldArgs)
    requires Upper(a.action) in Actions && Upper(a.fieldType) in FieldTypes && a.format.None?
    requires a.width.Some? && a.start.None?
    ensures AddFieldSpec(es, n, a) == Outcome(es, n + 1, Some(WidthWithoutStart))
  {
  }

  /** A field that breaks the all-or-none rule is still appended. */
  lemma MixedWidthKeepsEntry(es: seq<FieldEntry>, n: nat, a: FieldArgs)
    requires Validate(a).Ok?
    requires var n' := if a.width.Some? then n + 1 else n; n' > 0 && n' != |es| + 1
    ensures AddFieldSpec(es, n, a) == Outcome(es + [Validate(a).value],
                                              if a.width.Some? then n + 1 else n, Some(MixedWidth))
  {
  }

  function WidthCount(es: seq<FieldEntry>): nat {
    if es == [] then 0 else WidthCount(es[..|es| - 1]) + (if es[|es| - 1].width.Some? then 1 else 0)
  }

  /** Either every field has a fixed-width position or none has. */
  predicate AllOrNone(es: seq<FieldEntry>) {
    (forall i :: 0 <= i < |es| ==> es[i].width.Some?) || (forall i :: 0 <= i < |es| ==> es[i].width.None?)
  }

  /** The counter tells the truth and the schema is all-or-none. */
  predicate Consistent(es: seq<FieldEntry>, n: nat) {
    n == WidthCount(es) && AllOrNone(es)
  }

  lemma {:induction false} WidthCountBounds(es: seq<FieldEntry>)
    ensures WidthCount(es) <= |es|
    ensures WidthCount(es) == 0 <==> forall i :: 0 <= i < |es| ==> es[i].width.None?
    ensures WidthCount(es) == |es| <==> forall i :: 0 <= i < |es| ==> es[i].width.Some?
  {
    if es != [] {
      var init := es[..|es| - 1];
      WidthCountBounds(init);
      assert forall i :: 0 <= i < |init| ==> init[i] == es[i];
    }
  }

  /** While every call has succeeded, the builder stays consistent: a
      successful add_field preserves the counter's meaning and the
      all-or-none rule. */
  lemma AddFieldKeepsConsistent(es: seq<FieldEntry>, n: nat, a: FieldArgs)
    requires Consistent(es, n)
    requires AddFieldSpec(es, n, a).error.None?
    ensures Consistent(AddFieldSpec(es, n, a).entries, AddFieldSpec(es, n, a).numWidthFields)
  {
    var o := AddFieldSpec(es, n, a);
    var e := Validate(a).value;
    assert o.entries == es + [e];
    assert (es + [e])[..|es|] == es;
    WidthCountBounds(es);
    WidthCountBounds(es + [e]);
    assert BumpsCounter(a) <==> e.width.Some?;
  }

  /** A caught failure leaves the counter ahead of the entries, after which
      a mixed schema is accepted without complaint: a width without a start
      fails, a plain field then succeeds, and a positioned field then
      succeeds too. */
  lemma FailureUnbalancesCounter(a1: FieldArgs, a2: FieldArgs, a3: FieldArgs)
    requires a1 == DefaultArgs("a").(width := Some(PyInt("int", 3)))
    requires a2 == DefaultArgs("b")
    requires a3 == DefaultArgs("c").(width := Some(PyInt("int", 3)), start := Some(PyInt("int", 1)))
    ensures var o1 := AddFieldSpec([], 0, a1);
            var o2 := AddFieldSpec(o1.entries, o1.numWidthFields, a2);
            var o3 := AddFieldSpec(o2.entries, o2.numWidthFields, a3);
            o1.error == Some(WidthWithoutStart) && o2.error.None? && o3.error.None?
            && |o3.entries| == 2 && !AllOrNone(o3.entries)
  {
    assert Upper("str") == "STR";
    assert Upper("fix") == "FIX";
    var o1 := AddFieldSpec([], 0, a1);
    assert o1 == Outcome([], 1, Some(WidthWithoutStart));
    var o2 := AddFieldSpec(o1.entries, o1.numWidthFields, a2);
    assert Validate(a2).Ok?;
    assert o2.entries == [Validate(a2).value] && o2.numWidthFields == 1;
    var o3 := AddFieldSpec(o2.entries, o2.numWidthFields, a3);
    assert Validate(a3).Ok?;
    assert o3.entries[0].width.None? && o3.entries[1].width.Some?;
  }

  lemma TypeReprOf(v: PyObj, shown: string)
    requires |v.typeName| == |shown| && NoLower(shown)
    requires forall i :: 0 <= i < |shown| ==> UpperChar(v.typeName[i]) == shown[i]
    ensures TypeRepr(v) == "<CLASS '" + shown + "'>"
  {
    var raw := "<class '" + v.typeName + "'>";
    var want := "<CLASS '" + shown + "'>";
    forall i | 0 <= i < |raw| ensures UpperChar(raw[i]) == want[i] {
      if 8 <= i < 8 + |shown| {
        assert raw[i] == v.typeName[i - 8];
      }
    }
  }

  /** An int passes __check_type for FLOAT. */
  lemma FloatAcceptsInt(k: int)
    ensures CheckType("FLOAT", PyInt("int", k))
  {
    TypeReprOf(PyInt("int", k), "INT");
    assert StartsWithAt("<CLASS 'INT'>", "INT", 8);
    ContainsAt(TypeRepr(PyInt("int", k)), "INT", 8);
  }

  lemma FloatAcceptsFloat(x: real)
    ensures CheckType("FLOAT", PyFloat("float", x))
  {
    TypeReprOf(PyFloat("float", x), "FLOAT");
    assert StartsWithAt("<CLASS 'FLOAT'>", "FLOAT", 8);
    ContainsAt(TypeRepr(PyFloat("float", x)), "FLOAT", 8);
  }

  /** The FLOAT field of the min/max replacement test: a float maximum with
      an int replacement is accepted, since FLOAT takes integer types. */
  lemma FloatFieldTakesIntReplacement(a: FieldArgs)
    requires a == DefaultArgs("sin").(fieldType := "float",
                                       start := Some(PyInt("int", 4)), width := Some(PyInt("int", 6)),
                                       maximum := Some(PyFloat("float", 0.5)), maxRepl := Some(PyInt("int", 2)),
                                       minimum := Some(PyFloat("float", 0.0)), minRepl := Some(PyFloat("float", -2.0)))
    ensures Validate(a).Ok? && Validate(a).value.width == Some(6) && Validate(a).value.start == Some(4)
  {
    UpperFixes("FLOAT");
    assert Upper("float") == "FLOAT";
    assert Upper("fix") == "FIX";
    FloatAcceptsInt(2);
    FloatAcceptsFloat(0.5);
    FloatAcceptsFloat(0.0);
    FloatAcceptsFloat(-2.0);
    assert NameError(a).None?;
    assert PositionError(a).None?;
    assert ValueError(a).None?;
  }

  /** A DATE bound given as text is accepted exactly when the written
      literal check accepts it: a str's type name never contains DATE. */
  lemma DateTextNeedsLiteral(s: string)
    ensures CheckType("DATE", PyStr("str", s)) <==> DateLiteralAsWritten(s)
  {
    TypeReprOf(PyStr("str", s), "STR");
    var r := TypeRepr(PyStr("str", s));
    assert StartsWithAt(r, "STR", 8);
    ContainsAt(r, "STR", 8);
    var t := "DATE";
    forall j | 0 <= j ensures !StartsWithAt(r, t, j) {
      if j + |t| <= |r| {
        var w := r[j..j + |t|];
        assert w[0] == r[j] && w[1] == r[j + 1] && w[2] == r[j + 2];
        assert r[j] != t[0] || r[j + 1] != t[1] || r[j + 2] != t[2];
      }
    }
  }

  /** ZIP, STATE and STATETERR bounds can never be given as plain strings:
      no type repr contains those names. */
  lemma SpecialTypesRefuseStrings(t: string, s: string)
    requires t == "ZIP" || t == "STATE" || t == "STATETERR"
    ensures !CheckType(t, PyStr("str", s))
  {
    TypeReprOf(PyStr("str", s), "STR");
    var r := TypeRepr(PyStr("str", s));
    assert r == "<CLASS 'STR'>";
    forall j | 0 <= j ensures !StartsWithAt(r, t, j) {
      if j + |t| <= |r| {
        var w := r[j..j + |t|];
        assert w[0] == r[j] && w[1] == r[j + 1] && w[2] == r[j + 2];
        assert r[j] != t[0] || r[j + 1] != t[1] || r[j + 2] != t[2];
      }
    }
  }

  /** A layout name that neither begins nor ends with E or B and has no
      lower-case letters. */
  predicate Unmarked(f: string) {
    |f| > 0 && NoLower(f) && f[0] != 'E' && f[0] != 'B' && f[|f| - 1] != 'E' && f[|f| - 1] != 'B'
  }

  lemma StripMarks(f: string, mark: string)
    requires Unmarked(f)
    requires mark == "" || mark == "E" || mark == "B"
    ensures Strip(Strip(Upper(f + mark), 'E'), 'B') == f
  {
    UpperFixes(f + mark);
    var g := f + mark;
    assert g[..|f|] == f;
    if mark == "E" {
      assert StripRight(g, 'E') == StripRight(f, 'E');
    } else if mark == "B" {
      assert StripRight(g, 'B') == StripRight(f, 'B');
    }
  }

  /** The eight layouts, each optionally marked E or B at the end, are
      accepted. */
  lemma FormatsWithMarksAccepted(f: string, mark: string)
    requires f in DateFormats
    requires mark == "" || mark == "E" || mark == "B"
    ensures FormatAccepted(f + mark)
  {
    assert Unmarked(f);
    StripMarks(f, mark);
  }
}
