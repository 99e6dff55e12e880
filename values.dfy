/** Field values as the generated reader holds them, Python's comparisons
    between them, the ordering numpy uses to sort and search legal-value
    tables, and records (the OrderedDict fx_out). */
module Values {
  import opened Common
  import opened Calendar

  datatype Value =
    | NoValue            // Python None
    | Int(i: int)
    | Float(x: real)
    | Text(s: string)
    | Bytes(b: string)   // a raw slice of the file, left undecoded
    | Day(d: Date)
    | Bool(flag: bool)   // a flag a user hook stores, such as zip_ok

  // ---------------------------------------------------------------------------
  // Orders

  /** Code-point lexicographic order, as Python compares str and bytes. */
  predicate LexLess(s: string, t: string) {
    if s == [] then t != []
    else if t == [] then false
    else if s[0] != t[0] then s[0] < t[0]
    else LexLess(s[1..], t[1..])
  }

  predicate DateLess(a: Date, b: Date) {
    a.year < b.year || (a.year == b.year && (a.month < b.month || (a.month == b.month && a.day < b.day)))
  }

  /** Python's a < b; None stands for the TypeError raised when the two
      kinds cannot be compared (None against anything, str against int, ...).
      Range checks only ever compare decoded fields, which are never bools. */
  function PyLess(a: Value, b: Value): (r: Option<bool>)
    ensures r.Some? <==> ((a.Int? || a.Float?) && (b.Int? || b.Float?))
                         || (a.Text? && b.Text?) || (a.Bytes? && b.Bytes?) || (a.Day? && b.Day?)
  {
    match (a, b)
    case (Int(x), Int(y)) => Some(x < y)
    case (Int(x), Float(y)) => Some((x as real) < y)
    case (Float(x), Int(y)) => Some(x < (y as real))
    case (Float(x), Float(y)) => Some(x < y)
    case (Text(x), Text(y)) => Some(LexLess(x, y))
    case (Bytes(x), Bytes(y)) => Some(LexLess(x, y))
    case (Day(x), Day(y)) => Some(DateLess(x, y))
    case _ => None
  }

  predicate IsNum(v: Value) {
    v.Int? || v.Float?
  }

  /** The number an int or a float stands for. */
  function Num(v: Value): real
    requires IsNum(v)
  {
    if v.Int? then v.i as real else v.x
  }

  /** Python's ==: an int equals the float of the same number; values of
      other kinds are equal when they are the same value. */
  predicate Same(a: Value, b: Value) {
    if IsNum(a) && IsNum(b) then Num(a) == Num(b) else a == b
  }

  /** Ints and floats share a rank: they are ordered by the numbers they
      stand for. */
  function Rank(v: Value): nat {
    match v
    case NoValue => 0
    case Int(_) => 1
    case Float(_) => 1
    case Text(_) => 2
    case Bytes(_) => 3
    case Day(_) => 4
    case Bool(_) => 5
  }

  /** A strict order on all values, total up to Same: by kind, then within
      a kind as Python orders it, ints and floats by their numbers. A
      legal-value table holds values of one kind, where this is exactly
      the order numpy sorts and searches by. */
  predicate Before(a: Value, b: Value) {
    if Rank(a) != Rank(b) then Rank(a) < Rank(b)
    else if IsNum(a) && IsNum(b) then Num(a) < Num(b)
    else match (a, b)
      case (Text(x), Text(y)) => LexLess(x, y)
      case (Bytes(x), Bytes(y)) => LexLess(x, y)
      case (Day(x), Day(y)) => DateLess(x, y)
      case (Bool(x), Bool(y)) => !x && y
      case _ => false
  }

  /** Where the two comparisons overlap, Before is Python's <. */
  lemma BeforeIsPyLess(a: Value, b: Value)
    requires PyLess(a, b).Some?
    ensures Before(a, b) == PyLess(a, b).value
  {
  }

  lemma {:induction false} LexIrreflexive(s: string)
    ensures !LexLess(s, s)
    decreases |s|
  {
    if s != [] { LexIrreflexive(s[1..]); }
  }

  lemma {:induction false} LexTransitive(s: string, t: string, u: string)
    requires LexLess(s, t) && LexLess(t, u)
    ensures LexLess(s, u)
    decreases |s|
  {
    if s != [] && t != [] && u != [] && s[0] == t[0] && t[0] == u[0] {
      LexTransitive(s[1..], t[1..], u[1..]);
    }
  }

  lemma {:induction false} LexTotal(s: string, t: string)
    requires s != t
    ensures LexLess(s, t) || LexLess(t, s)
    decreases |s|
  {
    if s != [] && t != [] && s[0] == t[0] {
      assert s == [s[0]] + s[1..] && t == [t[0]] + t[1..];
      LexTotal(s[1..], t[1..]);
    }
  }

  lemma BeforeIrreflexive(a: Value)
    ensures !Before(a, a)
  {
    match a
    case Text(x) => LexIrreflexive(x);
    case Bytes(x) => LexIrreflexive(x);
    case _ =>
  }

  lemma BeforeTransitive(a: Value, b: Value, c: Value)
    requires Before(a, b) && Before(b, c)
    ensures Before(a, c)
  {
    if Rank(a) == Rank(b) == Rank(c) && !IsNum(a) {
      match (a, b, c)
      case (Text(x), Text(y), Text(z)) => LexTransitive(x, y, z);
      case (Bytes(x), Bytes(y), Bytes(z)) => LexTransitive(x, y, z);
      case _ =>
    }
  }

  /** Two values are equal exactly when neither comes before the other. */
  lemma SameUnordered(a: Value, b: Value)
    ensures Same(a, b) <==> !Before(a, b) && !Before(b, a)
  {
    if Rank(a) == Rank(b) && !IsNum(a) {
      match (a, b)
      case (Text(x), Text(y)) => if x == y { LexIrreflexive(x); } else { LexTotal(x, y); }
      case (Bytes(x), Bytes(y)) => if x == y { LexIrreflexive(x); } else { LexTotal(x, y); }
      case _ =>
    }
  }

  lemma BeforeTotal(a: Value, b: Value)
    requires !Same(a, b)
    ensures Before(a, b) || Before(b, a)
  {
    SameUnordered(a, b);
  }

  lemma BeforeTrichotomy(a: Value, b: Value)
    ensures Same(a, b) || Before(a, b) || Before(b, a)
  {
    SameUnordered(a, b);
  }

  /** Equal values stand in the same place in the order. */
  lemma BeforeRespectsSame(a: Value, b: Value, c: Value)
    requires Same(a, b)
    ensures Before(c, a) == Before(c, b) && Before(a, c) == Before(b, c)
  {
  }

  /** Not-after is transitive: the order is a total preorder. */
  lemma NotBeforeTransitive(a: Value, b: Value, c: Value)
    requires !Before(b, a) && !Before(c, b)
    ensures !Before(c, a)
  {
    if Before(c, a) {
      BeforeTrichotomy(a, b);
      if Same(a, b) {
        BeforeRespectsSame(a, b, c);
      } else if Before(a, b) {
        BeforeTransitive(c, a, b);
      }
    }
  }

  // ---------------------------------------------------------------------------
  // Sorting and searching (ndarray.sort, np.searchsorted)

  predicate Sorted(a: seq<Value>) {
    forall i, j :: 0 <= i < j < |a| ==> !Before(a[j], a[i])
  }

  /** v goes in front of a sorted table whose first element is not before it. */
  lemma SortedCons(v: Value, a: seq<Value>)
    requires Sorted(a) && a != [] && !Before(a[0], v)
    ensures Sorted([v] + a)
  {
    forall j | 0 <= j < |a| ensures !Before(a[j], v) {
      if j > 0 { assert !Before(a[j], a[0]); NotBeforeTransitive(v, a[0], a[j]); }
    }
  }

  /** The first element of a sorted table stays in front of the rest with
      v inserted, when it comes before v. */
  lemma SortedHead(v: Value, a: seq<Value>, rest: seq<Value>)
    requires Sorted(a) && a != [] && Before(a[0], v)
    requires Sorted(rest) && multiset(rest) == multiset(a[1..]) + multiset{v}
    ensures Sorted([a[0]] + rest)
  {
    forall j | 0 <= j < |rest| ensures !Before(rest[j], a[0]) {
      assert rest[j] in multiset(rest);
      if rest[j] == v {
        if Before(v, a[0]) { BeforeTransitive(v, a[0], v); BeforeIrreflexive(v); }
      } else {
        assert rest[j] in multiset(a[1..]);
        var k :| 0 <= k < |a[1..]| && a[1..][k] == rest[j];
        assert !Before(a[k + 1], a[0]);
      }
    }
  }

  /** Place v in front of the first element that is not before it. */
  function Insert(v: Value, a: seq<Value>): (r: seq<Value>)
    requires Sorted(a)
    ensures Sorted(r) && multiset(r) == multiset(a) + multiset{v}
  {
    if a == [] then [v]
    else if !Before(a[0], v) then
      SortedCons(v, a);
      [v] + a
    else
      var rest := Insert(v, a[1..]);
      assert a == [a[0]] + a[1..];
      SortedHead(v, a, rest);
      [a[0]] + rest
  }

  /** The ascending arrangement of a legal-value table. */
  function SortValues(a: seq<Value>): (r: seq<Value>)
    ensures Sorted(r) && multiset(r) == multiset(a)
  {
    if a == [] then []
    else
      assert a == [a[0]] + a[1..];
      Insert(a[0], SortValues(a[1..]))
  }

  /** The bisection numpy performs on [lo, hi). */
  function Bisect(a: seq<Value>, v: Value, lo: nat, hi: nat): (i: nat)
    requires lo <= hi <= |a|
    ensures lo <= i <= hi
    decreases hi - lo
  {
    if lo == hi then lo
    else
      var mid := (lo + hi) / 2;
      if Before(a[mid], v) then Bisect(a, v, mid + 1, hi) else Bisect(a, v, lo, mid)
  }

  /** np.searchsorted(a, v) with side='left'. */
  function SearchSorted(a: seq<Value>, v: Value): nat {
    Bisect(a, v, 0, |a|)
  }

  lemma {:induction false} BisectSplits(a: seq<Value>, v: Value, lo: nat, hi: nat)
    requires lo <= hi <= |a| && Sorted(a)
    requires forall j :: 0 <= j < lo ==> Before(a[j], v)
    requires forall j :: hi <= j < |a| ==> !Before(a[j], v)
    ensures forall j :: 0 <= j < Bisect(a, v, lo, hi) ==> Before(a[j], v)
    ensures forall j :: Bisect(a, v, lo, hi) <= j < |a| ==> !Before(a[j], v)
    decreases hi - lo
  {
    if lo < hi {
      var mid := (lo + hi) / 2;
      if Before(a[mid], v) {
        forall j | 0 <= j <= mid ensures Before(a[j], v) {
          if j < mid && !Before(a[j], v) {
            assert !Before(a[mid], a[j]);
            NotBeforeTransitive(v, a[j], a[mid]);
          }
        }
        BisectSplits(a, v, mid + 1, hi);
      } else {
        forall j | mid <= j < |a| ensures !Before(a[j], v) {
          if j > mid {
            assert !Before(a[j], a[mid]);
            NotBeforeTransitive(v, a[mid], a[j]);
          }
        }
        BisectSplits(a, v, lo, mid);
      }
    }
  }

  /** On a sorted table the search returns the insertion point: everything
      before it is smaller than v, nothing from it on is. */
  lemma SearchSortedSplits(a: seq<Value>, v: Value)
    requires Sorted(a)
    ensures SearchSorted(a, v) <= |a|
    ensures forall j :: 0 <= j < SearchSorted(a, v) ==> Before(a[j], v)
    ensures forall j :: SearchSorted(a, v) <= j < |a| ==> !Before(a[j], v)
  {
    BisectSplits(a, v, 0, |a|);
  }

  /** Whether the table holds a value equal to v, as Python's == sees it. */
  predicate Listed(a: seq<Value>, v: Value) {
    exists j :: 0 <= j < |a| && Same(a[j], v)
  }

  /** The membership test of the legal-value check: the insertion point is
      inside the table and holds a value equal to v exactly when the table
      holds one. */
  lemma SearchSortedFinds(a: seq<Value>, v: Value)
    requires Sorted(a)
    ensures (SearchSorted(a, v) < |a| && Same(a[SearchSorted(a, v)], v)) <==> Listed(a, v)
  {
    SearchSortedSplits(a, v);
    var i := SearchSorted(a, v);
    if Listed(a, v) {
      var k :| 0 <= k < |a| && Same(a[k], v);
      SameUnordered(a[k], v);
      assert i <= k;
      assert !Before(v, a[i]) by {
        BeforeRespectsSame(a[k], v, a[i]);
        if k > i { assert !Before(a[k], a[i]); } else { BeforeIrreflexive(a[i]); }
      }
      SameUnordered(a[i], v);
    }
  }

  /** The int 0 is found in the float table [0.0, 1.0]: the search compares
      numbers, not kinds. */
  lemma IntFoundAmongFloats()
    ensures var t := [Float(0.0), Float(1.0)];
      Sorted(t) && SearchSorted(t, Int(0)) == 0 && Same(t[0], Int(0)) && Listed(t, Int(0))
  {
  }

  /** The key a dict files v under: a float with an integral value hashes
      and compares like the int of that value, so 0.0 and 0 are one key. */
  function DictKey(v: Value): (k: Value)
    ensures Same(k, v)
  {
    if v.Float? && v.x == v.x.Floor as real then Int(v.x.Floor) else v
  }

  /** Two values share a dict key exactly when Python's == holds. */
  lemma DictKeySame(a: Value, b: Value)
    ensures DictKey(a) == DictKey(b) <==> Same(a, b)
  {
    if Same(a, b) && IsNum(a) && IsNum(b) {
      assert Num(DictKey(a)) == Num(DictKey(b));
    }
  }

  /** Sorting a table does not change which values it admits. */
  lemma SortedMembership(a: seq<Value>, v: Value)
    ensures Listed(SortValues(a), v) <==> Listed(a, v)
  {
    var s := SortValues(a);
    if Listed(a, v) {
      var k :| 0 <= k < |a| && Same(a[k], v);
      assert a[k] in multiset(a);
      assert a[k] in s;
    }
    if Listed(s, v) {
      var k :| 0 <= k < |s| && Same(s[k], v);
      assert s[k] in multiset(s);
      assert s[k] in a;
    }
  }

  // ---------------------------------------------------------------------------
  // Records: an ordered mapping from field name to value

  type Record = seq<(string, Value)>

  function Keys(r: Record): seq<string> {
    seq(|r|, i requires 0 <= i < |r| => r[i].0)
  }

  /** fx_out[k], None for the KeyError. */
  function Get(r: Record, k: string): Option<Value> {
    if r == [] then None
    else if r[0].0 == k then Some(r[0].1)
    else Get(r[1..], k)
  }

  /** fx_out[k] = v on an OrderedDict: an existing key keeps its position,
      a new key goes last. */
  function Set(r: Record, k: string, v: Value): Record {
    if r == [] then [(k, v)]
    else if r[0].0 == k then [(k, v)] + r[1..]
    else [r[0]] + Set(r[1..], k, v)
  }

  lemma {:induction false} GetSet(r: Record, k: string, v: Value, k': string)
    ensures Get(Set(r, k, v), k') == if k' == k then Some(v) else Get(r, k')
  {
    if r != [] && r[0].0 != k {
      GetSet(r[1..], k, v, k');
    }
  }

  /** Writing a key twice leaves only the second value, in the place the
      first write gave the key. */
  lemma {:induction false} SetSet(r: Record, k: string, v: Value, w: Value)
    ensures Set(Set(r, k, v), k, w) == Set(r, k, w)
  {
    if r != [] && r[0].0 != k {
      SetSet(r[1..], k, v, w);
    }
  }

  lemma {:induction false} KeysSet(r: Record, k: string, v: Value)
    ensures Keys(Set(r, k, v)) == if k in Keys(r) then Keys(r) else Keys(r) + [k]
  {
    if r != [] && r[0].0 != k {
      KeysSet(r[1..], k, v);
      assert Keys(r) == [r[0].0] + Keys(r[1..]);
      assert Keys(Set(r, k, v)) == [r[0].0] + Keys(Set(r[1..], k, v));
    } else if r != [] {
      assert Keys(r) == [k] + Keys(r[1..]);
    }
  }

  lemma {:induction false} GetPresent(r: Record, k: string)
    ensures Get(r, k).Some? <==> k in Keys(r)
  {
    if r != [] {
      GetPresent(r[1..], k);
      assert Keys(r) == [r[0].0] + Keys(r[1..]);
    }
  }
}
