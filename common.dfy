/** Shared vocabulary: failure-compatible wrappers and the few Python string
    and number built-ins the reader relies on, restricted to ASCII text. */
module Common {

  datatype Option<+T> = None | Some(value: T)

  datatype Result<+T, +E> = Ok(value: T) | Err(error: E)

  // ---------------------------------------------------------------------------
  // Characters and case

  predicate IsDigit(c: char) { '0' <= c <= '9' }

  /** The characters Python's argument-less str.strip() removes (ASCII subset). */
  predicate IsSpace(c: char) {
    c == ' ' || c == '\t' || c == '\n' || c == '\r' || c == '\U{000B}' || c == '\U{000C}'
  }

  function UpperChar(c: char): char {
    if 'a' <= c <= 'z' then (c as int - 32) as char else c
  }

  /** str.upper() on ASCII text. */
  function Upper(s: string): (r: string)
    ensures |r| == |s| && forall i :: 0 <= i < |s| ==> r[i] == UpperChar(s[i])
  {
    seq(|s|, i requires 0 <= i < |s| => UpperChar(s[i]))
  }

  predicate NoLower(s: string) {
    forall i :: 0 <= i < |s| ==> !('a' <= s[i] <= 'z')
  }

  lemma UpperFixes(s: string)
    requires NoLower(s)
    ensures Upper(s) == s
  {
  }

  // ---------------------------------------------------------------------------
  // Slicing, searching, stripping

  /** Python's s[a:b] for non-negative bounds: both ends are clamped to the
      length, and a start past the stop gives the empty string. */
  function Slice<T>(s: seq<T>, a: nat, b: nat): (r: seq<T>)
    ensures |r| <= |s|
  {
    var lo := if a <= |s| then a else |s|;
    var hi := if b <= |s| then b else |s|;
    if lo <= hi then s[lo..hi] else []
  }

  predicate StartsWithAt<T(==)>(s: seq<T>, sub: seq<T>, i: nat) {
    i + |sub| <= |s| && s[i..i + |sub|] == sub
  }

  /** str.find(sub, start): the first index at or after start where sub
      occurs, or -1. */
  function FindFrom<T(==)>(s: seq<T>, sub: seq<T>, start: nat): (r: int)
    ensures r == -1 || (start <= r && StartsWithAt(s, sub, r))
    ensures r >= 0 ==> forall j :: start <= j < r ==> !StartsWithAt(s, sub, j)
    ensures r == -1 ==> forall j :: start <= j ==> !StartsWithAt(s, sub, j)
    decreases |s| - start
  {
    if start + |sub| > |s| then -1
    else if s[start..start + |sub|] == sub then start
    else FindFrom(s, sub, start + 1)
  }

  function Find<T(==)>(s: seq<T>, sub: seq<T>): int { FindFrom(s, sub, 0) }

  predicate Contains<T(==)>(s: seq<T>, sub: seq<T>) { Find(s, sub) >= 0 }

  lemma ContainsAt<T>(s: seq<T>, sub: seq<T>, i: nat)
    requires StartsWithAt(s, sub, i)
    ensures Contains(s, sub)
  {
    var r := FindFrom(s, sub, 0);
  }

  /** str.rfind(c) for a single character. */
  function RFind<T(==)>(s: seq<T>, c: T): (r: int)
    ensures -1 <= r < |s|
    ensures r >= 0 ==> s[r] == c && forall j :: r < j < |s| ==> s[j] != c
    ensures r == -1 ==> c !in s
  {
    if s == [] then -1
    else if s[|s| - 1] == c then |s| - 1
    else RFind(s[..|s| - 1], c)
  }

  function StripLeft(s: string, c: char): string {
    if |s| > 0 && s[0] == c then StripLeft(s[1..], c) else s
  }

  function StripRight(s: string, c: char): string {
    if |s| > 0 && s[|s| - 1] == c then StripRight(s[..|s| - 1], c) else s
  }

  /** str.strip(c): remove every leading and trailing occurrence of c. */
  function Strip(s: string, c: char): string { StripRight(StripLeft(s, c), c) }

  lemma {:induction false} StripLeftShape(s: string, c: char)
    ensures exists i :: 0 <= i <= |s| && StripLeft(s, c) == s[i..]
    ensures |StripLeft(s, c)| > 0 ==> StripLeft(s, c)[0] != c
    decreases |s|
  {
    if |s| > 0 && s[0] == c {
      StripLeftShape(s[1..], c);
      var i :| 0 <= i <= |s[1..]| && StripLeft(s[1..], c) == s[1..][i..];
      assert s[1..][i..] == s[i + 1..];
    } else {
      assert s == s[0..];
    }
  }

  lemma {:induction false} StripRightShape(s: string, c: char)
    ensures exists j :: 0 <= j <= |s| && StripRight(s, c) == s[..j]
    ensures |StripRight(s, c)| > 0 ==> StripRight(s, c)[|StripRight(s, c)| - 1] != c
    decreases |s|
  {
    if |s| > 0 && s[|s| - 1] == c {
      StripRightShape(s[..|s| - 1], c);
      var j :| 0 <= j <= |s| - 1 && StripRight(s[..|s| - 1], c) == s[..|s| - 1][..j];
      assert s[..|s| - 1][..j] == s[..j];
    } else {
      assert s == s[..|s|];
    }
  }

  /** A stripped string is a contiguous piece of the original that neither
      begins nor ends with the stripped character. */
  lemma StripShape(s: string, c: char)
    ensures exists i, j :: 0 <= i <= j <= |s| && Strip(s, c) == s[i..j]
    ensures |Strip(s, c)| > 0 ==> Strip(s, c)[0] != c && Strip(s, c)[|Strip(s, c)| - 1] != c
  {
    StripLeftShape(s, c);
    var i :| 0 <= i <= |s| && StripLeft(s, c) == s[i..];
    var t := s[i..];
    StripRightShape(t, c);
    var j :| 0 <= j <= |t| && StripRight(t, c) == t[..j];
    assert Strip(s, c) == t[..j];
    assert t[..j] == s[i..i + j];
    if j > 0 {
      assert Strip(s, c)[0] == t[0] == StripLeft(s, c)[0];
    }
  }

  function StripSpaceLeft(s: string): string {
    if |s| > 0 && IsSpace(s[0]) then StripSpaceLeft(s[1..]) else s
  }

  function StripSpaceRight(s: string): string {
    if |s| > 0 && IsSpace(s[|s| - 1]) then StripSpaceRight(s[..|s| - 1]) else s
  }

  /** str.strip() with no argument. */
  function StripSpace(s: string): string { StripSpaceRight(StripSpaceLeft(s)) }

  /** s.replace(c, rep) for a single-character pattern. */
  function ReplaceChar(s: string, c: char, rep: string): string {
    if s == [] then []
    else (if s[0] == c then rep else [s[0]]) + ReplaceChar(s[1..], c, rep)
  }

  /** bytes.split(d) / str.split(d) with a one-character separator:
      n separators give n + 1 pieces, empty pieces included. */
  function Split(s: string, d: char): (parts: seq<string>)
    ensures |parts| >= 1
  {
    if s == [] then [""]
    else
      var rest := Split(s[1..], d);
      if s[0] == d then [""] + rest else [[s[0]] + rest[0]] + rest[1..]
  }

  lemma {:induction false} SplitNoDelim(s: string, d: char)
    requires d !in s
    ensures Split(s, d) == [s]
  {
    if s != [] {
      SplitNoDelim(s[1..], d);
      assert [s[0]] + s[1..] == s;
    }
  }

  /** Splitting at the first separator: the piece before it, then the
      pieces of the rest. */
  lemma {:induction false} SplitAt(a: string, b: string, d: char)
    requires d !in a
    ensures Split(a + [d] + b, d) == [a] + Split(b, d)
  {
    var s := a + [d] + b;
    if a == [] {
      assert s[1..] == b;
    } else {
      assert s[1..] == a[1..] + [d] + b;
      SplitAt(a[1..], b, d);
      assert [a[0]] + a[1..] == a;
    }
  }

  /** re.findall('([^/]+)', s): the maximal non-empty runs free of '/'. */
  function NonEmptyRuns(s: string): seq<string> {
    Filter(Split(s, '/'))
  }

  function Filter(parts: seq<string>): seq<string> {
    if parts == [] then []
    else (if parts[0] == "" then [] else [parts[0]]) + Filter(parts[1..])
  }

  // ---------------------------------------------------------------------------
  // Numbers

  /** int(x) for a float x: truncation toward zero. */
  function Trunc(x: real): int {
    if x >= 0.0 then x.Floor else -((-x).Floor)
  }

  function DigitChar(d: nat): char
    requires d < 10
  {
    ('0' as int + d) as char
  }

  /** str(n) for a non-negative integer. */
  function NatToString(n: nat): (r: string)
    ensures |r| >= 1 && forall i :: 0 <= i < |r| ==> IsDigit(r[i])
  {
    if n < 10 then [DigitChar(n)] else NatToString(n / 10) + [DigitChar(n % 10)]
  }

  predicate AllDigits(s: string) {
    forall i :: 0 <= i < |s| ==> IsDigit(s[i])
  }

  /** The value of a string of decimal digits, most significant first. */
  function DigitsValue(s: string): nat
    requires AllDigits(s)
  {
    if s == [] then 0 else DigitsValue(s[..|s| - 1]) * 10 + (s[|s| - 1] as int - '0' as int)
  }

  /** Decimal digits with single underscores between them, as int()
      accepts: no underscore first, last, or next to another. */
  predicate Underscored(s: string) {
    |s| > 0 && forall i :: 0 <= i < |s| ==> DigitOrGroup(s, i)
  }

  /** s[i] is a digit, or an underscore with a digit on either side. */
  predicate DigitOrGroup(s: string, i: nat)
    requires i < |s|
  {
    IsDigit(s[i]) || (s[i] == '_' && 0 < i < |s| - 1 && IsDigit(s[i - 1]) && IsDigit(s[i + 1]))
  }

  /** The digits of s, in order, without the underscores. */
  function KeepDigits(s: string): (r: string)
    ensures AllDigits(r) && |r| <= |s|
  {
    if s == [] then [] else (if IsDigit(s[0]) then [s[0]] else []) + KeepDigits(s[1..])
  }

  /** int(s) for a str s: surrounding white space, an optional sign, then
      decimal digits, possibly grouped by single underscores. */
  function ParseInt(s: string): (r: Option<int>)
  {
    var t := StripSpace(s);
    if |t| > 0 && (t[0] == '+' || t[0] == '-') then
      (if Underscored(t[1..])
       then Some(if t[0] == '-' then 0 - DigitsValue(KeepDigits(t[1..])) else DigitsValue(KeepDigits(t[1..])) as int)
       else None)
    else if Underscored(t) then Some(DigitsValue(KeepDigits(t)))
    else None
  }

  /** Underscores drop out of a run of digits that has none. */
  lemma {:induction false} KeepAllDigits(s: string)
    requires AllDigits(s)
    ensures KeepDigits(s) == s
  {
    if s != [] {
      KeepAllDigits(s[1..]);
      assert s == [s[0]] + s[1..];
    }
  }

  /** int() of a non-empty run of digits is its decimal value. */
  lemma ParseDigits(s: string)
    requires |s| > 0 && AllDigits(s)
    ensures ParseInt(s) == Some(DigitsValue(s) as int)
  {
    assert StripSpaceLeft(s) == s;
    assert StripSpaceRight(s) == s;
    KeepAllDigits(s);
  }

  lemma UnderscoreLast(s: string)
    requires |s| > 0 && s[|s| - 1] == '_'
    ensures !Underscored(s)
  {
    assert !DigitOrGroup(s, |s| - 1);
  }

  /** int() reads 2_100 as 2100 and refuses a doubled or trailing
      underscore. */
  lemma ParseUnderscores()
    ensures ParseInt("2_100") == Some(2100)
    ensures ParseInt("2__1") == None && ParseInt("21_") == None
  {
    var s := "2_100";
    assert StripSpaceLeft(s) == s && StripSpaceRight(s) == s;
    assert Underscored(s) by {
      assert s[0] == '2' && s[1] == '_' && s[2] == '1' && s[3] == '0' && s[4] == '0';
    }
    assert KeepDigits(s) == "2100" by {
      assert KeepDigits("00") == "00" by { KeepAllDigits("00"); }
      assert KeepDigits("100") == "100" by { KeepAllDigits("100"); }
      assert s[1..] == "_100" && s[1..][1..] == "100";
    }
    assert DigitsValue("2100") == 2100 by {
      assert "2100"[..3] == "210" && "210"[..2] == "21" && "21"[..1] == "2" && "2"[..0] == "";
    }
    var u := "2__1";
    assert StripSpaceLeft(u) == u && StripSpaceRight(u) == u;
    assert u[1] == '_' && u[2] == '_';
    assert !DigitOrGroup(u, 1);
    var w := "21_";
    assert w[0] == '2' && w[2] == '_';
    assert StripSpaceLeft(w) == w;
    assert StripSpaceRight(w) == w;
    UnderscoreLast(w);
  }

  lemma {:induction false} DigitsOfNat(n: nat)
    ensures DigitsValue(NatToString(n)) == n
  {
    var r := NatToString(n);
    if n >= 10 {
      DigitsOfNat(n / 10);
      assert r[..|r| - 1] == NatToString(n / 10);
    }
  }

  /** str(n) read back by int() gives n: the decimal rendering round-trips. */
  lemma ParseNatToString(n: nat)
    ensures ParseInt(NatToString(n)) == Some(n)
  {
    ParseDigits(NatToString(n));
    DigitsOfNat(n);
  }

  lemma NatToStringInjective(a: nat, b: nat)
    requires NatToString(a) == NatToString(b)
    ensures a == b
  {
    DigitsOfNat(a);
    DigitsOfNat(b);
  }
}
