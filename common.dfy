/**
 Shared vocabulary of the school backend model: optional values, the
 failure kinds every handler answers with, time as whole seconds, the
 present/total percentage rule, and the few string operations the handlers
 apply to request fields (strip, lower-case, split at a separator, decimal
 rendering of a counter).
 */
module Common {

  datatype Option<T> = None | Some(value: T) {
    function GetOr(default: T): T {
      match this
      case Some(v) => v
      case None => default
    }
  }

  /** The failure kinds the handlers distinguish, each mapped to one HTTP status. */
  datatype Failure =
    | Forbidden(message: string)        // role mismatch or another owner's resource: 403
    | ProfileMissing(message: string)   // role matches, one-to-one profile absent: 400, has_*_profile: false
    | BadRequest(message: string)       // missing or invalid input: 400
    | FieldErrors(errors: seq<FieldError>)  // serializer field-level errors: 400
    | NotFound                          // id does not resolve in the caller's scope: 404
    | ServerError                       // an exception reached the handler's catch-all: 500
  {
    function Status(): int {
      match this
      case Forbidden(_) => 403
      case ProfileMissing(_) => 400
      case BadRequest(_) => 400
      case FieldErrors(_) => 400
      case NotFound => 404
      case ServerError => 500
    }
  }

  datatype FieldError = FieldError(field: string, message: string)

  datatype Result<T> = Ok(value: T) | Err(failure: Failure)

  /** Python truthiness of an optional id taken from a request body. */
  predicate Given(id: Option<nat>) {
    id.Some? && id.value != 0
  }

  /** Instants are whole seconds since the epoch, in UTC. */
  type Time = int

  const SecondsPerHour := 3600
  const SecondsPerDay := 86400

  /** The calendar day of an instant, as `datetime.date()` gives it in UTC. */
  function Day(t: Time): (d: int)
    ensures d * SecondsPerDay <= t < (d + 1) * SecondsPerDay
  {
    t / SecondsPerDay
  }

  lemma DayMonotonic(a: Time, b: Time)
    requires a <= b
    ensures Day(a) <= Day(b)
  {
  }

  lemma DayShift(t: Time, k: int)
    ensures Day(t + k * SecondsPerDay) == Day(t) + k
  {
    var d := Day(t);
    assert (d + k) * SecondsPerDay <= t + k * SecondsPerDay < (d + k + 1) * SecondsPerDay;
    DayUnique(t + k * SecondsPerDay, d + k);
  }

  lemma DayUnique(t: Time, d: int)
    requires d * SecondsPerDay <= t < (d + 1) * SecondsPerDay
    ensures Day(t) == d
  {
  }

  /**
   The attendance and score percentage rule repeated across the handlers:
   `part / total * 100` when the total is positive, and 0 otherwise (never a
   division by zero). Exact, without the source's rounding to one decimal.
   */
  function Rate(part: int, total: int): (r: real)
    ensures total <= 0 ==> r == 0.0
    ensures total > 0 ==> r * (total as real) == (part as real) * 100.0
    ensures 0 <= part <= total ==> 0.0 <= r <= 100.0
    ensures 0 < total && part == total ==> r == 100.0
  {
    if total > 0 then (part as real) / (total as real) * 100.0 else 0.0
  }

  // ---------------------------------------------------------------------
  // Strings

  /** Python's `str.isspace()` for a single character. */
  predicate IsSpace(c: char) {
    ('\U{0009}' <= c <= '\U{000D}') || ('\U{001C}' <= c <= '\U{001F}') || c == ' ' ||
    c == '\U{0085}' || c == '\U{00A0}' || c == '\U{1680}' || ('\U{2000}' <= c <= '\U{200A}') ||
    c == '\U{2028}' || c == '\U{2029}' || c == '\U{202F}' || c == '\U{205F}' || c == '\U{3000}'
  }

  predicate AllSpace(s: string) {
    forall k :: 0 <= k < |s| ==> IsSpace(s[k])
  }

  /** `s.lstrip()`: drops whitespace from the front. */
  function LStrip(s: string): string {
    if s == [] || !IsSpace(s[0]) then s else LStrip(s[1..])
  }

  /** `s.rstrip()`: drops whitespace from the back. */
  function RStrip(s: string): string {
    if s == [] || !IsSpace(s[|s| - 1]) then s else RStrip(s[..|s| - 1])
  }

  /** `lstrip` keeps the longest suffix that does not start with whitespace: exactly the leading whitespace goes. */
  lemma {:induction false} LStripSpec(s: string)
    ensures |LStrip(s)| <= |s| && LStrip(s) == s[|s| - |LStrip(s)|..]
    ensures AllSpace(s[..|s| - |LStrip(s)|])
    ensures LStrip(s) == [] || !IsSpace(LStrip(s)[0])
  {
    if s != [] && IsSpace(s[0]) {
      var t := LStrip(s[1..]);
      LStripSpec(s[1..]);
      assert s[..|s| - |t|] == [s[0]] + s[1..][..|s[1..]| - |t|];
    }
  }

  /** `rstrip` keeps the longest prefix that does not end with whitespace: exactly the trailing whitespace goes. */
  lemma {:induction false} RStripSpec(s: string)
    ensures |RStrip(s)| <= |s| && RStrip(s) == s[..|RStrip(s)|]
    ensures AllSpace(s[|RStrip(s)|..])
    ensures RStrip(s) == [] || !IsSpace(RStrip(s)[|RStrip(s)| - 1])
  {
    if s != [] && IsSpace(s[|s| - 1]) {
      var t := RStrip(s[..|s| - 1]);
      RStripSpec(s[..|s| - 1]);
      assert s[|t|..] == s[..|s| - 1][|t|..] + [s[|s| - 1]];
    }
  }

  /** `s.strip()`. */
  function Strip(s: string): string {
    RStrip(LStrip(s))
  }

  /** What the handlers test with `if not value.strip()`. */
  lemma StripEmptyIffAllSpace(s: string)
    ensures Strip(s) == [] <==> AllSpace(s)
  {
    var l := LStrip(s);
    LStripSpec(s);
    RStripSpec(l);
    if !AllSpace(s) {
      var k :| 0 <= k < |s| && !IsSpace(s[k]);
      assert k >= |s| - |l|;
      var j := k - (|s| - |l|);
      assert l[j] == s[k];
      assert l[0..] == l;
      assert !AllSpace(l[0..]);
      assert |RStrip(l)| != 0;
    }
  }

  lemma {:induction false} StripNoEdgeSpace(s: string)
    ensures Strip(s) == [] || (!IsSpace(Strip(s)[0]) && !IsSpace(Strip(s)[|Strip(s)| - 1]))
  {
    var l := LStrip(s);
    var r := RStrip(l);
    LStripSpec(s);
    RStripSpec(l);
    if r != [] {
      assert r == l[..|r|];
      assert r[0] == l[0];
    }
  }

  /** ASCII `str.lower()`. */
  function LowerChar(c: char): char {
    if 'A' <= c <= 'Z' then (c as int + 32) as char else c
  }

  function Lower(s: string): (r: string)
    ensures |r| == |s|
    ensures forall k :: 0 <= k < |s| ==> r[k] == LowerChar(s[k])
  {
    if s == [] then [] else [LowerChar(s[0])] + Lower(s[1..])
  }

  /** `s.split(sep)[0]`: the text before the first `sep`, or all of `s`. */
  function BeforeFirst(s: string, sep: char): (r: string)
    ensures r <= s
    ensures sep !in r
    ensures r == s || s[|r|] == sep
  {
    if s == [] then []
    else if s[0] == sep then []
    else [s[0]] + BeforeFirst(s[1..], sep)
  }

  /** `str(n)` for a natural number. */
  function NatToString(n: nat): (r: string)
    ensures |r| >= 1
    ensures forall k :: 0 <= k < |r| ==> '0' <= r[k] <= '9'
    ensures n >= 10 ==> |r| >= 2
  {
    if n < 10 then [DigitChar(n)] else NatToString(n / 10) + [DigitChar(n % 10)]
  }

  function DigitChar(d: nat): (c: char)
    requires d < 10
    ensures '0' <= c <= '9'
  {
    ('0' as int + d) as char
  }

  /** The value of a decimal digit character. */
  function DigitValue(c: char): nat {
    if '0' <= c <= '9' then c as int - '0' as int else 0
  }

  /** The number a run of decimal digits spells, most significant digit first. */
  function DigitsValue(s: string): nat {
    if s == [] then 0 else DigitsValue(s[..|s| - 1]) * 10 + DigitValue(s[|s| - 1])
  }

  /** The digits `str(n)` writes spell `n` back. */
  lemma {:induction false} NatToStringRoundTrip(n: nat)
    ensures DigitsValue(NatToString(n)) == n
    decreases n
  {
    if n >= 10 {
      NatToStringRoundTrip(n / 10);
      assert NatToString(n)[..|NatToString(n)| - 1] == NatToString(n / 10);
    }
  }

  lemma {:induction false} NatToStringInjective(a: nat, b: nat)
    requires NatToString(a) == NatToString(b)
    ensures a == b
  {
    var sa, sb := NatToString(a), NatToString(b);
    if a < 10 && b < 10 {
      assert sa[0] == DigitChar(a) && sb[0] == DigitChar(b);
    } else if a < 10 || b < 10 {
      assert false;
    } else {
      assert sa[|sa| - 1] == DigitChar(a % 10) && sb[|sb| - 1] == DigitChar(b % 10);
      assert a % 10 == b % 10;
      assert NatToString(a / 10) == sa[..|sa| - 1] == sb[..|sb| - 1] == NatToString(b / 10);
      NatToStringInjective(a / 10, b / 10);
    }
  }

  lemma PrefixedCounterInjective(base: string, a: nat, b: nat)
    requires base + NatToString(a) == base + NatToString(b)
    ensures a == b
  {
    var x, y := base + NatToString(a), base + NatToString(b);
    assert NatToString(a) == x[|base|..] == y[|base|..] == NatToString(b);
    NatToStringInjective(a, b);
  }

  // ---------------------------------------------------------------------
  // Query helpers: `.filter(...)` and `.count()` over a table kept in row order

  function Filter<T>(s: seq<T>, p: T -> bool): (r: seq<T>)
    ensures |r| <= |s|
    ensures forall i :: 0 <= i < |r| ==> r[i] in s && p(r[i])
    ensures forall i :: 0 <= i < |s| && p(s[i]) ==> s[i] in r
  {
    if s == [] then []
    else (if p(s[0]) then [s[0]] else []) + Filter(s[1..], p)
  }

  /** `r` is `s` with some elements left out and the rest kept in their order. */
  predicate IsSubsequence<T(==)>(r: seq<T>, s: seq<T>)
    decreases |s|
  {
    if r == [] then true
    else if s == [] then false
    else (r[0] == s[0] && IsSubsequence(r[1..], s[1..])) || IsSubsequence(r, s[1..])
  }

  /** A filter keeps the order of the rows it keeps. */
  lemma {:induction false} FilterSubsequence<T>(s: seq<T>, p: T -> bool)
    ensures IsSubsequence(Filter(s, p), s)
  {
    if s != [] {
      FilterSubsequence(s[1..], p);
      if p(s[0]) {
        var r := Filter(s, p);
        assert r[0] == s[0] && r[1..] == Filter(s[1..], p);
      } else {
        assert Filter(s, p) == Filter(s[1..], p);
      }
    }
  }

  /** A filter keeps every occurrence of a value satisfying `p` and none of any other. */
  lemma {:induction false} FilterMultiplicity<T>(s: seq<T>, p: T -> bool)
    ensures forall x :: multiset(Filter(s, p))[x] == if p(x) then multiset(s)[x] else 0
  {
    if s != [] {
      FilterMultiplicity(s[1..], p);
      assert s == [s[0]] + s[1..];
      assert multiset(s) == multiset([s[0]]) + multiset(s[1..]);
    }
  }

  lemma {:induction false} FilterAppend<T>(a: seq<T>, b: seq<T>, p: T -> bool)
    ensures Filter(a + b, p) == Filter(a, p) + Filter(b, p)
  {
    if a == [] {
      assert a + b == b;
    } else {
      assert (a + b)[0] == a[0] && (a + b)[1..] == a[1..] + b;
      FilterAppend(a[1..], b, p);
    }
  }

  /** Nothing passes a filter no element satisfies. */
  lemma {:induction false} FilterNone<T>(s: seq<T>, p: T -> bool)
    requires forall i :: 0 <= i < |s| ==> !p(s[i])
    ensures Filter(s, p) == []
  {
    if s != [] {
      FilterNone(s[1..], p);
    }
  }

  /** `.filter(p).count()`. */
  function Count<T>(s: seq<T>, p: T -> bool): nat {
    |Filter(s, p)|
  }

  lemma {:induction false} CountSplit<T>(s: seq<T>, p: T -> bool, q: T -> bool)
    ensures Count(s, p) == Count(s, x => p(x) && q(x)) + Count(s, x => p(x) && !q(x))
  {
    if s != [] {
      CountSplit(s[1..], p, q);
    }
  }

  /**
   `Model.objects.get(id=id)` on a table whose rows carry their primary key as
   `key(row)`: the first row with that key, None exactly when no row has it.
   */
  function FindById<T>(rows: seq<T>, key: T -> nat, id: nat): (r: Option<T>)
    ensures r.Some? ==> r.value in rows && key(r.value) == id
    ensures r.None? <==> forall x :: x in rows ==> key(x) != id
  {
    if rows == [] then None
    else if key(rows[0]) == id then Some(rows[0])
    else FindById(rows[1..], key, id)
  }

  /** Saving a new row does not change how an id that already resolves is found. */
  lemma {:induction false} FindByIdAppend<T>(rows: seq<T>, key: T -> nat, x: T, id: nat)
    requires FindById(rows, key, id).Some?
    ensures FindById(rows + [x], key, id) == FindById(rows, key, id)
  {
    if key(rows[0]) != id {
      assert (rows + [x])[1..] == rows[1..] + [x];
      FindByIdAppend(rows[1..], key, x, id);
    }
  }

  /** Index of the first empty value: the first required field a handler reports as missing. */
  function FirstEmpty(values: seq<string>): (r: Option<nat>)
    ensures r.Some? ==> r.value < |values| && values[r.value] == []
    ensures r.Some? ==> forall j :: 0 <= j < r.value ==> values[j] != []
    ensures r.None? <==> forall j :: 0 <= j < |values| ==> values[j] != []
  {
    if values == [] then None
    else if values[0] == [] then Some(0)
    else match FirstEmpty(values[1..])
      case None => None
      case Some(k) => Some(k + 1)
  }
}
