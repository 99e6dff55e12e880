/** The per-field decode and validation rules create_reader emits into the
    generated reader: conversion by type, then the minimum, maximum and
    legal-value checks, each answered by the field's FIX/DROP/FATAL policy. */
module Decode {
  import opened Common
  import opened Calendar
  import opened Values

  datatype Policy = Fix | Drop | Fatal

  datatype FieldType =
    | StrField | IntField | FloatField | BytesField
    | DateField(format: string)     // the upper-cased field_format
    | ZipField | StateField | StateTerrField

  /** What the reader knows of one field: the bounds and replacements are
      the values the emitted code compares against and assigns (None as
      NoValue), the legal table the sorted array it searches. */
  datatype FieldRule = FieldRule(
    name: string,
    ftype: FieldType,
    policy: Policy,
    minimum: Option<Value>,
    minRepl: Value,
    maximum: Option<Value>,
    maxRepl: Value,
    legal: Option<seq<Value>>,
    illegalRepl: Value)

  datatype DecodeError =
    | MissingColumn     // the IndexError of a row with too few columns
    | ZipNotNumeric
    | ConversionError
    | BelowMinimum
    | AboveMaximum
    | NotLegal
    | Incomparable      // the TypeError of comparing unlike values

  /** A field's value so far, and whether it has cleared keepx. */
  datatype Checked = Checked(value: Value, dropped: bool)

  // ---------------------------------------------------------------------------
  // Conversion

  /** .strip('\n').strip('\r').strip(' ') and then .replace(remove_char, ''). */
  function Trim(raw: string, removeChar: Option<char>): string {
    var t := Strip(Strip(Strip(raw, '\n'), '\r'), ' ');
    if removeChar.Some? then ReplaceChar(t, removeChar.value, "") else t
  }

  function Remove(raw: string, removeChar: Option<char>): string {
    if removeChar.Some? then ReplaceChar(raw, removeChar.value, "") else raw
  }

  /** The zero-padding of ZIP codes: three digits get "00", four get "0". */
  function PadZip(z: string): string {
    if |z| == 3 then "00" + z else if |z| == 4 then "0" + z else z
  }

  function DateOf(y: Option<int>, m: Option<int>, d: Option<int>): Option<Date> {
    if y.Some? && m.Some? && d.Some? then MakeDate(y.value, m.value, d.value) else None
  }

  function ParseAll(parts: seq<string>): Option<seq<int>> {
    if parts == [] then Some([])
    else match (ParseInt(parts[0]), ParseAll(parts[1..]))
      case (Some(x), Some(xs)) => Some([x] + xs)
      case _ => None
  }

  /** [int(x) for x in re.findall('([^/]+)', s)] read as month, day, year. */
  function SlashDate(s: string): Option<Date> {
    match ParseAll(NonEmptyRuns(s))
    case None => None
    case Some(dt) => if |dt| < 3 then None else MakeDate(dt[2], dt[0], dt[1])
  }

  /** The date the emitted code builds from the text of a DATE field: the
      first layout name found in the format decides the character
      positions; an unknown layout falls back to the slash-separated form. */
  function ParseDate(format: string, s: string): Option<Date> {
    var f := Upper(format);
    if Contains(f, "CCYYMMDD") then DateOf(ParseInt(Slice(s, 0, 4)), ParseInt(Slice(s, 4, 6)), ParseInt(Slice(s, 6, 8)))
    else if Contains(f, "CCYYMM") then DateOf(ParseInt(Slice(s, 0, 4)), ParseInt(Slice(s, 4, 6)), Some(1))
    else if Contains(f, "YYMM") then DateOf(ParseInt(Slice(s, 0, 2)), ParseInt(Slice(s, 2, 4)), Some(1))
    else if Contains(f, "MM/DD/YY") then SlashDate(s)
    else if Contains(f, "MMDDCCYY") then DateOf(ParseInt(Slice(s, 4, 8)), ParseInt(Slice(s, 0, 2)), ParseInt(Slice(s, 2, 4)))
    else if Contains(f, "MM/CCYY") then DateOf(ParseInt(Slice(s, 3, 7)), ParseInt(Slice(s, 0, 2)), Some(1))
    else if Contains(f, "CCYY/MM/DD") then DateOf(ParseInt(Slice(s, 0, 4)), ParseInt(Slice(s, 5, 7)), ParseInt(Slice(s, 8, 10)))
    else SlashDate(s)
  }

  /** A format ending in E moves the date to the end of its month, one
      ending in B to the first. */
  function AdjustDate(format: string, d: Date): (r: Option<Date>)
    requires ValidDate(d)
    ensures r.Some? ==> ValidDate(r.value) && r.value.year == d.year && r.value.month == d.month
    ensures r.Some? && |format| > 0 && format[|format| - 1] == 'E' ==> r.value.day == DaysInMonth(d.year, d.month)
    ensures r.Some? && |format| > 0 && format[|format| - 1] == 'B' ==> r.value.day == 1
    ensures r.None? ==> |format| > 0 && format[|format| - 1] == 'E'
  {
    if |format| > 0 && format[|format| - 1] == 'E' then ToEndOfMonth(d)
    else if |format| > 0 && format[|format| - 1] == 'B' then Some(FirstOfMonth(d))
    else Some(d)
  }

  datatype Conversion =
    | Converted(value: Value)
    | Unconvertible(current: Value)   // conversion raised; the field holds what it held then
    | ZipFault

  /** The type stage. parseFloat stands for Python's float() on the text,
      None for the ValueError it raises. */
  function Convert(ftype: FieldType, raw: string, removeChar: Option<char>,
                   parseFloat: string -> Option<real>): (r: Conversion)
    ensures r.ZipFault? <==> ftype == ZipField && ParseInt(PadZip(Trim(raw, removeChar))).None?
    ensures r.Unconvertible? ==> ftype == IntField || ftype == FloatField || ftype.DateField?
    ensures r.Converted? ==>
      (ftype == IntField ==> r.value.Int?) && (ftype == FloatField ==> r.value.Float?)
      && (ftype == BytesField ==> r.value.Bytes?) && (ftype.DateField? ==> r.value.Day?)
      && (ftype == StrField || ftype == ZipField || ftype == StateField || ftype == StateTerrField ==> r.value.Text?)
  {
    match ftype
    case StrField => Converted(Text(Trim(raw, removeChar)))
    case StateField => Converted(Text(Trim(raw, removeChar)))
    case StateTerrField => Converted(Text(Trim(raw, removeChar)))
    case BytesField => Converted(Bytes(raw))
    case ZipField =>
      var z := PadZip(Trim(raw, removeChar));
      if ParseInt(z).Some? then Converted(Text(z)) else ZipFault
    case DateField(fmt) =>
      var s := Remove(raw, removeChar);
      var parsed := ParseDate(fmt, s);
      if parsed.None? then Unconvertible(Text(s))
      else (match AdjustDate(fmt, parsed.value)
        case Some(d) => Converted(Day(d))
        case None => Unconvertible(Day(parsed.value)))
    case IntField =>
      var s := Remove(raw, removeChar);
      (match parseFloat(s)
       case Some(x) => Converted(Int(Trunc(x)))
       case None => Unconvertible(if removeChar.Some? then Text(s) else Bytes(raw)))
    case FloatField =>
      var s := Remove(raw, removeChar);
      match parseFloat(s)
      case Some(x) => Converted(Float(x))
      case None => Unconvertible(if removeChar.Some? then Text(s) else Bytes(raw))
  }

  // ---------------------------------------------------------------------------
  // The check chain

  /** The policy's answer to a failed check: FATAL raises, DROP clears
      keepx and leaves the value, FIX substitutes the replacement. */
  function OnViolation(p: Policy, c: Checked, replacement: Value, err: DecodeError): Result<Checked, DecodeError> {
    match p
    case Fatal => Err(err)
    case Drop => Ok(Checked(c.value, true))
    case Fix => Ok(Checked(replacement, c.dropped))
  }

  function TypeStage(rule: FieldRule, conv: Conversion): (r: Result<Checked, DecodeError>)
    ensures r.Ok? && r.value.dropped ==> rule.policy == Drop
    ensures r.Err? ==> r.error == ZipNotNumeric || (rule.policy == Fatal && r.error == ConversionError)
  {
    match conv
    case Converted(v) => Ok(Checked(v, false))
    case ZipFault => Err(ZipNotNumeric)
    case Unconvertible(cur) => OnViolation(rule.policy, Checked(cur, false), rule.illegalRepl, ConversionError)
  }

  /** if (fx is not None) and (fx < minimum) */
  function MinStage(rule: FieldRule, c: Checked): (r: Result<Checked, DecodeError>)
    ensures r.Ok? && rule.policy != Fix ==> r.value.value == c.value
    ensures r.Ok? && r.value.dropped ==> c.dropped || rule.policy == Drop
    ensures r.Err? ==> r.error == Incomparable || (rule.policy == Fatal && r.error == BelowMinimum)
  {
    if rule.minimum.None? || c.value.NoValue? then Ok(c)
    else match PyLess(c.value, rule.minimum.value)
      case None => Err(Incomparable)
      case Some(below) => if below then OnViolation(rule.policy, c, rule.minRepl, BelowMinimum) else Ok(c)
  }

  /** if (fx is not None) and (fx > maximum) */
  function MaxStage(rule: FieldRule, c: Checked): (r: Result<Checked, DecodeError>)
    ensures r.Ok? && rule.policy != Fix ==> r.value.value == c.value
    ensures r.Ok? && r.value.dropped ==> c.dropped || rule.policy == Drop
    ensures r.Err? ==> r.error == Incomparable || (rule.policy == Fatal && r.error == AboveMaximum)
  {
    if rule.maximum.None? || c.value.NoValue? then Ok(c)
    else match PyLess(rule.maximum.value, c.value)
      case None => Err(Incomparable)
      case Some(above) => if above then OnViolation(rule.policy, c, rule.maxRepl, AboveMaximum) else Ok(c)
  }

  /** The value can be compared with every entry of the table, so that
      searchsorted does not raise a TypeError (None, or text against a
      table of dates or numbers). */
  predicate Searchable(t: seq<Value>, v: Value) {
    t == [] || (PyLess(v, t[0]).Some? && Searchable(t[1..], v))
  }

  /** chk = searchsorted(table, fx); illegal when chk == size or
      table[chk] != fx, where != compares numbers across int and float. */
  function LegalStage(rule: FieldRule, c: Checked): (r: Result<Checked, DecodeError>)
    ensures r.Ok? && rule.policy != Fix ==> r.value.value == c.value
    ensures r.Ok? && r.value.dropped ==> c.dropped || rule.policy == Drop
    ensures r.Err? ==> r.error == Incomparable || (rule.policy == Fatal && r.error == NotLegal)
  {
    match rule.legal
    case None => Ok(c)
    case Some(t) =>
      if !Searchable(t, c.value) then Err(Incomparable)
      else
        var chk := SearchSorted(t, c.value);
        if chk == |t| || !Same(t[chk], c.value) then OnViolation(rule.policy, c, rule.illegalRepl, NotLegal) else Ok(c)
  }

  function Then(r: Result<Checked, DecodeError>, f: Checked -> Result<Checked, DecodeError>): Result<Checked, DecodeError> {
    match r
    case Err(e) => Err(e)
    case Ok(c) => f(c)
  }

  /** One field of one record: convert, then check against the minimum,
      the maximum and the legal values, each check seeing the value the
      previous one may have replaced. */
  function DecodeField(rule: FieldRule, raw: string, removeChar: Option<char>,
                       parseFloat: string -> Option<real>): (r: Result<Checked, DecodeError>)
    ensures r.Ok? && r.value.dropped ==> rule.policy == Drop
    ensures r.Err? ==> r.error == ZipNotNumeric || r.error == Incomparable || rule.policy == Fatal
  {
    var typed := TypeStage(rule, Convert(rule.ftype, raw, removeChar, parseFloat));
    Then(Then(Then(typed, c => MinStage(rule, c)), c => MaxStage(rule, c)), c => LegalStage(rule, c))
  }

  // ---------------------------------------------------------------------------
  // What the checks mean

  predicate TablesSorted(rule: FieldRule) {
    rule.legal.Some? ==> Sorted(rule.legal.value)
  }

  /** v passes every check of the rule: not below the minimum, not above
      the maximum, one of the legal values and comparable with all of them. */
  predicate Acceptable(rule: FieldRule, v: Value) {
    (rule.minimum.Some? ==> PyLess(v, rule.minimum.value) == Some(false))
    && (rule.maximum.Some? ==> PyLess(rule.maximum.value, v) == Some(false))
    && (rule.legal.Some? ==> Searchable(rule.legal.value, v) && Listed(rule.legal.value, v))
  }

  /** The bounds and the legal values can be compared with v at all. */
  predicate Comparable(rule: FieldRule, v: Value) {
    (rule.minimum.Some? ==> PyLess(v, rule.minimum.value).Some?)
    && (rule.maximum.Some? ==> PyLess(rule.maximum.value, v).Some?)
    && (rule.legal.Some? ==> Searchable(rule.legal.value, v))
  }

  /** The legal-value check raises on a value the table cannot be searched
      for, keeps a value equal to an entry, and applies the policy to any
      other. */
  lemma LegalStageMeans(rule: FieldRule, c: Checked)
    requires TablesSorted(rule) && rule.legal.Some?
    ensures LegalStage(rule, c) ==
      if !Searchable(rule.legal.value, c.value) then Err(Incomparable)
      else if Listed(rule.legal.value, c.value) then Ok(c)
      else OnViolation(rule.policy, c, rule.illegalRepl, NotLegal)
  {
    SearchSortedFinds(rule.legal.value, c.value);
  }

  /** Under FATAL a field decodes exactly when its text converts to a value
      that passes every check, and it then holds that value. */
  lemma FatalDecodes(rule: FieldRule, raw: string, rc: Option<char>, pf: string -> Option<real>)
    requires rule.policy == Fatal && TablesSorted(rule)
    ensures DecodeField(rule, raw, rc, pf).Ok? <==>
      Convert(rule.ftype, raw, rc, pf).Converted? && Acceptable(rule, Convert(rule.ftype, raw, rc, pf).value)
    ensures DecodeField(rule, raw, rc, pf).Ok? ==>
      DecodeField(rule, raw, rc, pf).value == Checked(Convert(rule.ftype, raw, rc, pf).value, false)
  {
    var conv := Convert(rule.ftype, raw, rc, pf);
    if conv.Converted? {
      var c := Checked(conv.value, false);
      assert !conv.value.NoValue?;
      if rule.legal.Some? {
        if MinStage(rule, c) == Ok(c) && MaxStage(rule, c) == Ok(c) {
          LegalStageMeans(rule, c);
        }
      }
    }
  }

  /** Under DROP a convertible value is never replaced: the field keeps it,
      and the record is dropped exactly when the value fails a check. */
  lemma DropKeepsValue(rule: FieldRule, raw: string, rc: Option<char>, pf: string -> Option<real>)
    requires rule.policy == Drop && TablesSorted(rule)
    requires Convert(rule.ftype, raw, rc, pf).Converted?
    requires Comparable(rule, Convert(rule.ftype, raw, rc, pf).value)
    ensures var v := Convert(rule.ftype, raw, rc, pf).value;
            DecodeField(rule, raw, rc, pf) == Ok(Checked(v, !Acceptable(rule, v)))
  {
    var v := Convert(rule.ftype, raw, rc, pf).value;
    assert !v.NoValue?;
    var c := Checked(v, false);
    var m := MinStage(rule, c).value;
    var x := MaxStage(rule, m).value;
    assert x.value == v;
    if rule.legal.Some? { LegalStageMeans(rule, x); }
  }

  /** Under DROP an unconvertible INT is left as the raw bytes, and a
      minimum check then compares bytes with a number: the TypeError ends
      the read instead of dropping the record. */
  lemma DropThenCompareFails(rule: FieldRule, raw: string, pf: string -> Option<real>)
    requires rule.policy == Drop && rule.ftype == IntField
    requires rule.minimum.Some? && rule.minimum.value.Int?
    requires pf(raw).None?
    ensures DecodeField(rule, raw, None, pf) == Err(Incomparable)
  {
  }

  predicate NotBelow(v: Value, bound: Option<Value>) {
    bound.None? || PyLess(v, bound.value) == Some(false)
  }

  predicate NotAbove(v: Value, bound: Option<Value>) {
    bound.None? || PyLess(bound.value, v) == Some(false)
  }

  /** Under FIX, replacements that themselves lie within the bounds keep
      every decoded value within the bounds (or None), and with a legal
      table the value is legal or is the illegal replacement. */
  lemma FixStaysInBounds(rule: FieldRule, raw: string, rc: Option<char>, pf: string -> Option<real>)
    requires rule.policy == Fix && TablesSorted(rule)
    requires rule.minimum.Some? ==> NotBelow(rule.minRepl, rule.minimum) && NotAbove(rule.minRepl, rule.maximum)
    requires rule.maximum.Some? ==> NotBelow(rule.maxRepl, rule.minimum) && NotAbove(rule.maxRepl, rule.maximum)
    requires rule.legal.Some? ==> rule.illegalRepl.NoValue? || (NotBelow(rule.illegalRepl, rule.minimum) && NotAbove(rule.illegalRepl, rule.maximum))
    ensures DecodeField(rule, raw, rc, pf).Ok? ==> !DecodeField(rule, raw, rc, pf).value.dropped
    ensures DecodeField(rule, raw, rc, pf).Ok? && rule.legal.Some? ==>
      var v := DecodeField(rule, raw, rc, pf).value.value;
      Listed(rule.legal.value, v) || v == rule.illegalRepl
    ensures DecodeField(rule, raw, rc, pf).Ok? ==>
      var v := DecodeField(rule, raw, rc, pf).value.value;
      v.NoValue? || (NotBelow(v, rule.minimum) && NotAbove(v, rule.maximum))
  {
    var t := TypeStage(rule, Convert(rule.ftype, raw, rc, pf));
    if t.Ok? {
      var m := MinStage(rule, t.value);
      if m.Ok? {
        assert m.value.value.NoValue? || NotBelow(m.value.value, rule.minimum);
        var x := MaxStage(rule, m.value);
        if x.Ok? {
          var y := x.value;
          assert y.value.NoValue? || (NotBelow(y.value, rule.minimum) && NotAbove(y.value, rule.maximum));
          if rule.legal.Some? { LegalStageMeans(rule, y); }
        }
      }
    }
  }

  /** A FLOAT field under FIX with minimum 0.0, the int 0 as its minimum
      replacement and the legal values [0.0, 1.0]: the text -1 is raised
      to 0, which the legal check accepts, since 0 == 0.0. */
  lemma IntReplacementIsLegal(pf: string -> Option<real>)
    requires pf("-1") == Some(-1.0)
    ensures var rule := FieldRule("x", FloatField, Fix, Some(Float(0.0)), Int(0), None, NoValue,
                                  Some([Float(0.0), Float(1.0)]), NoValue);
            DecodeField(rule, "-1", None, pf) == Ok(Checked(Int(0), false))
  {
    IntFoundAmongFloats();
  }

  /** An INT field under FIX with the default replacement None: a text
      that does not convert becomes None, which skips the bounds but not
      the legal-value search, where None against ints raises. */
  lemma UnconvertedNoneRaises(pf: string -> Option<real>)
    requires pf("abc").None?
    ensures var rule := FieldRule("x", IntField, Fix, None, NoValue, None, NoValue,
                                  Some([Int(1), Int(2)]), NoValue);
            DecodeField(rule, "abc", None, pf) == Err(Incomparable)
  {
    assert PyLess(NoValue, Int(1)).None?;
  }

  /** Eight letters are no CCYYMMDD date: the year does not parse. */
  lemma LettersAreNoDate()
    ensures ParseDate("CCYYMMDD", "xxxxxxxx").None?
  {
    var s := "xxxxxxxx";
    UpperFixes("CCYYMMDD");
    ContainsItself("CCYYMMDD");
    assert Slice(s, 0, 4) == "xxxx";
    assert StripSpace("xxxx") == "xxxx";
    assert !DigitOrGroup("xxxx", 0);
    assert ParseInt("xxxx").None?;
  }

  /** A DATE field under DROP whose text is not a date keeps the text, and
      searching a table of dates for it raises instead of dropping the row. */
  lemma UndatedTextRaises(pf: string -> Option<real>)
    ensures var rule := FieldRule("d", DateField("CCYYMMDD"), Drop, None, NoValue, None, NoValue,
                                  Some([Day(Date(2020, 1, 1))]), NoValue);
            DecodeField(rule, "xxxxxxxx", None, pf) == Err(Incomparable)
  {
    var rule := FieldRule("d", DateField("CCYYMMDD"), Drop, None, NoValue, None, NoValue,
                          Some([Day(Date(2020, 1, 1))]), NoValue);
    var s := "xxxxxxxx";
    LettersAreNoDate();
    var conv := Convert(rule.ftype, s, None, pf);
    assert conv == Unconvertible(Text(s));
    var c := Checked(Text(s), true);
    assert TypeStage(rule, conv) == Ok(c);
    assert MinStage(rule, c) == Ok(c) && MaxStage(rule, c) == Ok(c);
    assert PyLess(Text(s), rule.legal.value[0]).None?;
    assert LegalStage(rule, c) == Err(Incomparable);
  }

  /** A field whose text is not an integer ZIP code ends the read under
      every policy. */
  lemma ZipFaultIsFatal(rule: FieldRule, raw: string, rc: Option<char>, pf: string -> Option<real>)
    requires rule.ftype == ZipField
    requires ParseInt(PadZip(Trim(raw, rc))).None?
    ensures DecodeField(rule, raw, rc, pf) == Err(ZipNotNumeric)
  {
  }

  /** Three- and four-digit ZIP codes are padded to five characters with
      leading zeros; the digits themselves are kept. */
  lemma ZipPadded(z: string)
    requires |z| == 3 || |z| == 4
    ensures |PadZip(z)| == 5
    ensures PadZip(z)[5 - |z|..] == z
    ensures forall i :: 0 <= i < 5 - |z| ==> PadZip(z)[i] == '0'
  {
  }

  /** A converted DATE field whose format ends in E holds the last day of
      its month; one whose format ends in B holds the first. */
  lemma DateMarks(fmt: string, raw: string, rc: Option<char>, pf: string -> Option<real>)
    requires Convert(DateField(fmt), raw, rc, pf).Converted?
    ensures Convert(DateField(fmt), raw, rc, pf).value.Day?
    ensures var d := Convert(DateField(fmt), raw, rc, pf).value.d;
            ValidDate(d)
            && (|fmt| > 0 && fmt[|fmt| - 1] == 'E' ==> d.day == DaysInMonth(d.year, d.month) && d.day >= 28)
            && (|fmt| > 0 && fmt[|fmt| - 1] == 'B' ==> d.day == 1)
  {
  }

  // ---------------------------------------------------------------------------
  // Text renderings of dates, to state what the layouts read back

  function TwoDigits(n: nat): (r: string)
    requires n < 100
    ensures |r| == 2 && AllDigits(r)
  {
    [DigitChar(n / 10), DigitChar(n % 10)]
  }

  function FourDigits(n: nat): (r: string)
    requires n < 10000
    ensures |r| == 4 && AllDigits(r)
  {
    TwoDigits(n / 100) + TwoDigits(n % 100)
  }

  lemma TwoDigitsValue(n: nat)
    requires n < 100
    ensures ParseInt(TwoDigits(n)) == Some(n)
  {
    var r := TwoDigits(n);
    ParseDigits(r);
    assert r[..1] == [DigitChar(n / 10)];
    assert DigitsValue(r[..1]) == n / 10;
  }

  lemma DigitsAppend(a: string, c: char)
    requires AllDigits(a) && IsDigit(c)
    ensures AllDigits(a + [c]) && DigitsValue(a + [c]) == DigitsValue(a) * 10 + (c as int - '0' as int)
  {
    assert (a + [c])[..|a|] == a;
  }

  lemma FourDigitsValue(n: nat)
    requires n < 10000
    ensures ParseInt(FourDigits(n)) == Some(n)
  {
    var hi, lo := TwoDigits(n / 100), TwoDigits(n % 100);
    ParseDigits(FourDigits(n));
    TwoDigitsValue(n / 100);
    ParseDigits(hi);
    DigitsAppend(hi, lo[0]);
    DigitsAppend(hi + [lo[0]], lo[1]);
    assert hi + [lo[0]] + [lo[1]] == FourDigits(n);
  }

  lemma ContainsItself(f: string)
    ensures Contains(f, f)
  {
    assert StartsWithAt(f, f, 0);
    ContainsAt(f, f, 0);
  }

  /** A valid date written as CCYYMMDD reads back as itself. */
  lemma CcyymmddReadsBack(d: Date)
    requires ValidDate(d)
    ensures ParseDate("CCYYMMDD", FourDigits(d.year) + TwoDigits(d.month) + TwoDigits(d.day)) == Some(d)
  {
    var s := FourDigits(d.year) + TwoDigits(d.month) + TwoDigits(d.day);
    UpperFixes("CCYYMMDD");
    ContainsItself("CCYYMMDD");
    assert Slice(s, 0, 4) == FourDigits(d.year);
    assert Slice(s, 4, 6) == TwoDigits(d.month);
    assert Slice(s, 6, 8) == TwoDigits(d.day);
    FourDigitsValue(d.year);
    TwoDigitsValue(d.month);
    TwoDigitsValue(d.day);
  }
  // ---------------------------------------------------------------------------
  // One record

  /** The outcome for field j of a record: a column the row lacks ends the
      read whatever the field's policy. */
  function FieldResult(rule: FieldRule, cols: seq<string>, index: nat,
                       rc: Option<char>, pf: string -> Option<real>): Result<Checked, DecodeError>
  {
    if index >= |cols| then Err(MissingColumn) else DecodeField(rule, cols[index], rc, pf)
  }

  function FieldResults(rules: seq<FieldRule>, cols: seq<string>, indices: seq<nat>,
                        rc: Option<char>, pf: string -> Option<real>): (r: seq<Result<Checked, DecodeError>>)
    requires |indices| == |rules|
    ensures |r| == |rules|
    ensures forall j :: 0 <= j < |rules| ==> r[j] == FieldResult(rules[j], cols, indices[j], rc, pf)
  {
    seq(|rules|, j requires 0 <= j < |rules| => FieldResult(rules[j], cols, indices[j], rc, pf))
  }

  /** Storing the field outcomes i.. into the record built so far: every
      field is stored under its name even once one has cleared keepx; the
      first field that raised ends the read. */
  function Assemble(names: seq<string>, results: seq<Result<Checked, DecodeError>>,
                    i: nat, out: Record, keep: bool): Result<(Record, bool), DecodeError>
    requires |names| == |results| && i <= |results|
    decreases |results| - i
  {
    if i == |results| then Ok((out, keep))
    else match results[i]
      case Err(e) => Err(e)
      case Ok(c) => Assemble(names, results, i + 1, Set(out, names[i], c.value), keep && !c.dropped)
  }

  function Names(rules: seq<FieldRule>): (r: seq<string>)
    ensures |r| == |rules| && forall j :: 0 <= j < |rules| ==> r[j] == rules[j].name
  {
    seq(|rules|, j requires 0 <= j < |rules| => rules[j].name)
  }

  /** fx_out and the final keepx of one row whose keepx was still true
      when decoding began, or the error raised. */
  function DecodeRow(rules: seq<FieldRule>, cols: seq<string>, indices: seq<nat>,
                     rc: Option<char>, pf: string -> Option<real>): Result<(Record, bool), DecodeError>
    requires |indices| == |rules|
  {
    Assemble(Names(rules), FieldResults(rules, cols, indices, rc, pf), 0, [], true)
  }

  /** The decode block of the generated reader, field by field. */
  method DecodeRecord(rules: seq<FieldRule>, cols: seq<string>, indices: seq<nat>,
                      rc: Option<char>, pf: string -> Option<real>)
    returns (r: Result<(Record, bool), DecodeError>)
    requires |indices| == |rules|
    ensures r == DecodeRow(rules, cols, indices, rc, pf)
  {
    ghost var names := Names(rules);
    ghost var results := FieldResults(rules, cols, indices, rc, pf);
    var out: Record := [];
    var keep := true;
    var i := 0;
    while i < |rules|
      invariant 0 <= i <= |rules|
      invariant Assemble(names, results, i, out, keep) == DecodeRow(rules, cols, indices, rc, pf)
      decreases |rules| - i
    {
      // a column the row does not have is the IndexError of cols[index]
      var c := FieldResult(rules[i], cols, indices[i], rc, pf);
      assert results[i] == c && names[i] == rules[i].name;
      if c.Err? {
        return Err(c.error);
      }
      AssembleStep(names, results, i, out, keep);
      out := Set(out, rules[i].name, c.value.value);
      if c.value.dropped {
        keep := false;
      }
      i := i + 1;
    }
    return Ok((out, keep));
  }

  /** One stored field: the record and keepx after field i. */
  lemma AssembleStep(names: seq<string>, results: seq<Result<Checked, DecodeError>>,
                     i: nat, out: Record, keep: bool)
    requires |names| == |results| && i < |results| && results[i].Ok?
    ensures Assemble(names, results, i, out, keep)
         == Assemble(names, results, i + 1, Set(out, names[i], results[i].value.value),
                     keep && !results[i].value.dropped)
  {
  }

  /** Assembling succeeds exactly when every field does; keepx survives
      exactly when no field cleared it; a failure is the error of the first
      field that fails. */
  lemma {:induction false} AssembleOutcome(names: seq<string>, results: seq<Result<Checked, DecodeError>>,
                                           i: nat, out: Record, keep: bool)
    requires |names| == |results| && i <= |results|
    ensures var r := Assemble(names, results, i, out, keep);
      (r.Ok? <==> forall j :: i <= j < |results| ==> results[j].Ok?)
      && (r.Ok? ==> (r.value.1 <==> keep && forall j :: i <= j < |results| ==> !results[j].value.dropped))
      && (r.Err? ==> exists j :: i <= j < |results| && results[j] == Err(r.error)
                       && forall l :: i <= l < j ==> results[l].Ok?)
    decreases |results| - i
  {
    if i < |results| && results[i].Ok? {
      AssembleOutcome(names, results, i + 1, Set(out, names[i], results[i].value.value), keep && !results[i].value.dropped);
    }
  }

  predicate Distinct(names: seq<string>) {
    forall j, l :: 0 <= j < l < |names| ==> names[j] != names[l]
  }

  /** Storing a key the record does not have appends it; other keys read
      as before. */
  lemma SetNew(out: Record, k: string, v: Value)
    requires k !in Keys(out)
    ensures Keys(Set(out, k, v)) == Keys(out) + [k]
    ensures Get(Set(out, k, v), k) == Some(v)
    ensures forall k' :: k' != k ==> Get(Set(out, k, v), k') == Get(out, k')
  {
    KeysSet(out, k, v);
    GetSet(out, k, v, k);
    forall k' | k' != k ensures Get(Set(out, k, v), k') == Get(out, k') {
      GetSet(out, k, v, k');
    }
  }

  lemma {:induction false} AssembleRecord(names: seq<string>, results: seq<Result<Checked, DecodeError>>,
                                          i: nat, out: Record, keep: bool)
    requires |names| == |results| && i <= |results|
    requires Distinct(names)
    requires forall j :: i <= j < |names| ==> names[j] !in Keys(out)
    requires Assemble(names, results, i, out, keep).Ok?
    ensures var rec := Assemble(names, results, i, out, keep).value.0;
      Keys(rec) == Keys(out) + names[i..]
      && (forall j :: i <= j < |results| ==> results[j].Ok? && Get(rec, names[j]) == Some(results[j].value.value))
      && (forall k :: k !in names[i..] ==> Get(rec, k) == Get(out, k))
    decreases |results| - i
  {
    if i == |results| {
      assert names[i..] == [];
    } else {
      var c := results[i].value;
      var out' := Set(out, names[i], c.value);
      AssembleStep(names, results, i, out, keep);
      SetNew(out, names[i], c.value);
      forall j | i + 1 <= j < |names| ensures names[j] !in Keys(out') {
        assert names[i] != names[j];
      }
      AssembleRecord(names, results, i + 1, out', keep && !c.dropped);
      var rec := Assemble(names, results, i + 1, out', keep && !c.dropped).value.0;
      assert names[i..] == [names[i]] + names[i + 1..];
      assert names[i] !in names[i + 1..] by {
        forall l | i + 1 <= l < |names| ensures names[l] != names[i] { }
      }
      assert Keys(rec) == Keys(out) + names[i..] by {
        assert Keys(rec) == (Keys(out) + [names[i]]) + names[i + 1..];
      }
      forall j | i <= j < |results| ensures results[j].Ok? && Get(rec, names[j]) == Some(results[j].value.value) {
        if j == i {
          assert Get(rec, names[i]) == Get(out', names[i]);
        }
      }
      forall k | k !in names[i..] ensures Get(rec, k) == Get(out, k) {
        assert k !in names[i + 1..] && k != names[i];
      }
    }
  }

  /** A row decodes exactly when every field decodes, and then keepx
      survives exactly when no field cleared it. */
  lemma RowOutcome(rules: seq<FieldRule>, cols: seq<string>, indices: seq<nat>,
                   rc: Option<char>, pf: string -> Option<real>)
    requires |indices| == |rules|
    ensures var r := DecodeRow(rules, cols, indices, rc, pf);
      (r.Ok? <==> forall j :: 0 <= j < |rules| ==> FieldResult(rules[j], cols, indices[j], rc, pf).Ok?)
      && (r.Ok? ==> (r.value.1 <==> forall j :: 0 <= j < |rules| ==> !FieldResult(rules[j], cols, indices[j], rc, pf).value.dropped))
      && (r.Err? ==> exists j :: 0 <= j < |rules| && FieldResult(rules[j], cols, indices[j], rc, pf) == Err(r.error)
                       && forall l :: 0 <= l < j ==> FieldResult(rules[l], cols, indices[l], rc, pf).Ok?)
  {
    AssembleOutcome(Names(rules), FieldResults(rules, cols, indices, rc, pf), 0, [], true);
  }

  /** What a decoded row holds: one entry per field, in schema order, each
      holding that field's decoded value (field names distinct). */
  lemma RowHoldsFields(rules: seq<FieldRule>, cols: seq<string>, indices: seq<nat>,
                       rc: Option<char>, pf: string -> Option<real>)
    requires |indices| == |rules| && Distinct(Names(rules))
    requires DecodeRow(rules, cols, indices, rc, pf).Ok?
    ensures var rec := DecodeRow(rules, cols, indices, rc, pf).value.0;
      Keys(rec) == Names(rules)
      && forall j :: 0 <= j < |rules| ==>
           FieldResult(rules[j], cols, indices[j], rc, pf).Ok?
           && Get(rec, rules[j].name) == Some(FieldResult(rules[j], cols, indices[j], rc, pf).value.value)
  {
    assert Keys([]) == [];
    AssembleRecord(Names(rules), FieldResults(rules, cols, indices, rc, pf), 0, [], true);
    assert Names(rules)[0..] == Names(rules);
  }
}
