/** Values shared by every part of the model: optional values, the JSON values stored in
    the `metadata` column, timestamps and calendar days, PHP's notion of an "empty" value,
    and the few string operations the queries need. */
module Common {

  datatype Option<T> = None | Some(value: T)

  /** PHP's `$x ?? $default` on a nullable attribute. */
  function OrElse<T>(o: Option<T>, default: T): (r: T)
    ensures o.Some? ==> r == o.value
    ensures o.None? ==> r == default
  {
    match o
    case Some(v) => v
    case None => default
  }

  /** Why a handler or a service call ends without doing its work. In the program each of
      these is an exception that is thrown (or re-thrown) to the caller or the queue. */
  datatype Failure =
    | NotFound            // ModelNotFoundException / a job whose model cannot be restored
    | StorageFailure      // the database refused or lost a read or a write
    | MailFailure         // the mail transport refused the message
    | QueryError          // a database constraint was violated (unique, not null, enum)
    | InvalidDirection    // orderBy was given a direction other than asc/desc
    | TypeFailure         // a value of the wrong type reached a typed return (TypeError)

  datatype Outcome = Done | Failed(failure: Failure)

  /** A value, or the failure that was thrown instead of returning it. */
  datatype Result<T> = Ok(value: T) | Err(failure: Failure)

  /** A decoded JSON value as PHP sees it after the `array` cast. Decimal numbers appear
      only as money, so they are kept exactly as a whole number of cents. */
  datatype Json =
    | JNull
    | JBool(b: bool)
    | JInt(i: int)
    | JCents(cents: int)              // the decimal number cents / 100
    | JStr(s: string)
    | JTime(instant: int)             // the ISO-8601 rendering of an instant
    | JArr(items: seq<Json>)
    | JObj(fields: map<string, Json>)

  type Metadata = map<string, Json>

  /** PHP's `empty($s)` for a string: the empty string and "0" are both empty. */
  predicate PhpEmpty(s: string) {
    s == "" || s == "0"
  }

  /** PHP's truthiness of a decoded JSON value, as `if (!$x)` tests it. */
  predicate Truthy(j: Json) {
    match j
    case JNull => false
    case JBool(b) => b
    case JInt(i) => i != 0
    case JCents(c) => c != 0
    case JStr(s) => !PhpEmpty(s)
    case JTime(_) => true
    case JArr(a) => |a| > 0
    case JObj(m) => |m| > 0
  }

  /** PHP's `$m[$k] ?? null`: the value under `k` unless it is missing or null. */
  function Lookup(m: Metadata, k: string): (r: Option<Json>)
    ensures r.Some? <==> k in m && m[k] != JNull
    ensures r.Some? ==> r.value == m[k]
  {
    if k in m && m[k] != JNull then Some(m[k]) else None
  }

  // ---------------------------------------------------------------- time

  /** Instants are whole seconds; a calendar day is a window of 86400 of them
      (time zones are not modelled, so "local midnight" is a multiple of a day). */
  const SecondsPerHour: int := 3600
  const SecondsPerDay: int := 86400

  /** The calendar day an instant falls on, as `whereDate` compares it. */
  function Day(t: int): int {
    t / SecondsPerDay
  }

  /** `Carbon::startOfDay()`: the first instant of the day `t` falls on. */
  function StartOfDay(t: int): (s: int)
    ensures s <= t < s + SecondsPerDay
    ensures Day(s) == Day(t)
  {
    Day(t) * SecondsPerDay
  }

  /** An instant falls on day `d` exactly when it lies in the midnight-to-midnight
      window of `d`: a widget created one second before midnight belongs to the day before. */
  lemma DayWindow(t: int, d: int)
    ensures Day(t) == d <==> d * SecondsPerDay <= t < (d + 1) * SecondsPerDay
  {
    var q := Day(t);
    assert q * SecondsPerDay <= t < (q + 1) * SecondsPerDay;
    if d < q {
      assert (d + 1) * SecondsPerDay <= q * SecondsPerDay;
    } else if d > q {
      assert (q + 1) * SecondsPerDay <= d * SecondsPerDay;
    }
  }

  /** `subDay()` on a start of day is the start of the previous day. */
  lemma PreviousDay(t: int)
    ensures Day(StartOfDay(t) - SecondsPerDay) == Day(t) - 1
  {
    DayWindow(StartOfDay(t) - SecondsPerDay, Day(t) - 1);
  }

  // ---------------------------------------------------------------- sequences

  /** The rows of `s` that satisfy `p`, in their original order (a `where` clause). */
  function Filter<T>(s: seq<T>, p: T -> bool): (r: seq<T>)
    ensures |r| <= |s|
    ensures forall i :: 0 <= i < |r| ==> r[i] in s && p(r[i])
    ensures forall i :: 0 <= i < |s| && p(s[i]) ==> s[i] in r
  {
    if s == [] then []
    else if p(s[0]) then [s[0]] + Filter(s[1..], p)
    else Filter(s[1..], p)
  }

  /** Filtering keeps the multiset of the rows that satisfy `p`. */
  lemma {:induction false} FilterMultiset<T>(s: seq<T>, p: T -> bool)
    ensures multiset(Filter(s, p)) <= multiset(s)
  {
    if s != [] {
      FilterMultiset(s[1..], p);
      assert s == [s[0]] + s[1..];
    }
  }

  /** Filtering one row keeps it exactly when it qualifies. */
  lemma FilterSingleton<T>(x: T, p: T -> bool)
    ensures Filter([x], p) == if p(x) then [x] else []
  {
    assert [x][1..] == [];
  }

  /** Filtering distributes over concatenation, so with `FilterSingleton` it fixes the
      result row by row: the qualifying rows, each as often as it occurs, in their order. */
  lemma {:induction false} FilterAppend<T>(s: seq<T>, t: seq<T>, p: T -> bool)
    ensures Filter(s + t, p) == Filter(s, p) + Filter(t, p)
  {
    if s != [] {
      assert (s + t)[0] == s[0];
      assert (s + t)[1..] == s[1..] + t;
      FilterAppend(s[1..], t, p);
    } else {
      assert s + t == t;
    }
  }

  /** The number of rows kept is the number of qualifying rows. */
  lemma {:induction false} FilterCount<T>(s: seq<T>, p: T -> bool)
    ensures |Filter(s, p)| == Count(s, p)
  {
    if s != [] {
      FilterCount(s[1..], p);
    }
  }

  /** Filtering twice is filtering once by both conditions. */
  lemma {:induction false} FilterFilter<T>(s: seq<T>, p: T -> bool, q: T -> bool)
    ensures Filter(Filter(s, p), q) == Filter(s, x => p(x) && q(x))
  {
    if s != [] {
      FilterFilter(s[1..], p, q);
    }
  }

  /** The number of elements of `s` that satisfy `p` (SQL `count()` under a `where`). */
  function Count<T>(s: seq<T>, p: T -> bool): (n: nat)
    ensures n <= |s|
  {
    if s == [] then 0 else (if p(s[0]) then 1 else 0) + Count(s[1..], p)
  }

  /** A count is zero exactly when no element qualifies, and full exactly when all do. */
  lemma {:induction false} CountExtremes<T>(s: seq<T>, p: T -> bool)
    ensures Count(s, p) == 0 <==> forall i :: 0 <= i < |s| ==> !p(s[i])
    ensures Count(s, p) == |s| <==> forall i :: 0 <= i < |s| ==> p(s[i])
  {
    if s != [] {
      CountExtremes(s[1..], p);
      assert forall i :: 1 <= i < |s| ==> s[i] == s[1..][i - 1];
    }
  }

  /** Counting under a weaker condition never gives less. */
  lemma {:induction false} CountMono<T>(s: seq<T>, p: T -> bool, q: T -> bool)
    requires forall x :: p(x) ==> q(x)
    ensures Count(s, p) <= Count(s, q)
  {
    if s != [] {
      CountMono(s[1..], p, q);
    }
  }

  /** Two conditions that agree on every element count the same. */
  lemma CountAgree<T>(s: seq<T>, p: T -> bool, q: T -> bool)
    requires forall x :: p(x) == q(x)
    ensures Count(s, p) == Count(s, q)
  {
    CountMono(s, p, q);
    CountMono(s, q, p);
  }

  /** Replacing one element changes a count by that element's contribution only. */
  lemma {:induction false} CountUpdate<T>(s: seq<T>, i: nat, x: T, p: T -> bool)
    requires i < |s|
    ensures Count(s[i := x], p) + (if p(s[i]) then 1 else 0) == Count(s, p) + (if p(x) then 1 else 0)
  {
    if i > 0 {
      CountUpdate(s[1..], i - 1, x, p);
      assert s[i := x][1..] == s[1..][i - 1 := x];
    } else {
      assert s[i := x][1..] == s[1..];
    }
  }

  /** The first `n` elements of `s`, or all of them (SQL `limit`). */
  function Take<T>(s: seq<T>, n: nat): (r: seq<T>)
    ensures |r| == if |s| < n then |s| else n
    ensures r == s[..|r|]
  {
    if |s| <= n then s else s[..n]
  }

  // ---------------------------------------------------------------- strings

  /** ASCII lower-casing, the case folding the database applies in `like`. */
  function LowerChar(c: char): char {
    if 'A' <= c <= 'Z' then (c as int + 32) as char else c
  }

  function Lower(s: string): (r: string)
    ensures |r| == |s|
    ensures forall i :: 0 <= i < |s| ==> r[i] == LowerChar(s[i])
  {
    seq(|s|, i requires 0 <= i < |s| => LowerChar(s[i]))
  }

  /** `needle` occurs in `hay` at position `i`. */
  predicate OccursAt(hay: string, needle: string, i: int) {
    0 <= i <= |hay| - |needle| && hay[i..i + |needle|] == needle
  }

  /** Substring test, as `like '%needle%'` performs it on a string without wildcards. */
  function HasInfix(hay: string, needle: string): (b: bool)
    ensures b <==> exists i :: OccursAt(hay, needle, i)
    decreases |hay|
  {
    if |needle| > |hay| then false
    else if hay[..|needle|] == needle then (assert OccursAt(hay, needle, 0); true)
    else
      var rest := HasInfix(hay[1..], needle);
      assert rest ==> exists i :: OccursAt(hay, needle, i) by {
        if rest {
          var j :| OccursAt(hay[1..], needle, j);
          assert hay[1..][j..j + |needle|] == hay[j + 1..j + 1 + |needle|];
          assert OccursAt(hay, needle, j + 1);
        }
      }
      assert (exists i :: OccursAt(hay, needle, i)) ==> rest by {
        if exists i :: OccursAt(hay, needle, i) {
          var i :| OccursAt(hay, needle, i);
          assert i != 0;
          assert hay[1..][i - 1..i - 1 + |needle|] == hay[i..i + |needle|];
          assert OccursAt(hay[1..], needle, i - 1);
        }
      }
      rest
  }

  /** SQL `LIKE` without an escape character: `%` matches any run of characters, `_` any
      single character, and every other character itself. */
  predicate Like(s: string, pattern: string)
    decreases |s| + |pattern|
  {
    if pattern == [] then s == []
    else if pattern[0] == '%' then Like(s, pattern[1..]) || (s != [] && Like(s[1..], pattern))
    else s != [] && (pattern[0] == '_' || pattern[0] == s[0]) && Like(s[1..], pattern[1..])
  }

  /** A string in which `LIKE` sees no wildcard. */
  predicate NoWildcards(t: string) {
    forall i :: 0 <= i < |t| ==> t[i] != '%' && t[i] != '_'
  }

  /** `%` alone matches every string. */
  lemma {:induction false} LikeAnything(s: string)
    ensures Like(s, "%")
  {
    if s != [] {
      LikeAnything(s[1..]);
    }
  }

  /** A wildcard-free pattern followed by `%` matches exactly the strings it begins. */
  lemma {:induction false} LikePrefix(s: string, t: string)
    requires NoWildcards(t)
    ensures Like(s, t + "%") <==> |t| <= |s| && s[..|t|] == t
  {
    if t == [] {
      assert t + "%" == "%";
      LikeAnything(s);
    } else {
      assert (t + "%")[1..] == t[1..] + "%";
      if s != [] {
        LikePrefix(s[1..], t[1..]);
        assert |t| <= |s| && s[..|t|] == t <==>
               s[0] == t[0] && |t[1..]| <= |s[1..]| && s[1..][..|t[1..]|] == t[1..] by {
          if |t| <= |s| && s[..|t|] == t {
            assert s[1..][..|t[1..]|] == s[..|t|][1..];
          }
          if s[0] == t[0] && |t[1..]| <= |s[1..]| && s[1..][..|t[1..]|] == t[1..] {
            assert s[..|t|] == [s[0]] + s[1..][..|t[1..]|];
            assert t == [t[0]] + t[1..];
          }
        }
      }
    }
  }

  /** A leading `%` lets the rest of the pattern match any suffix. */
  lemma {:induction false} LikeSuffix(s: string, q: string)
    ensures Like(s, "%" + q) <==> exists k :: 0 <= k <= |s| && Like(s[k..], q)
  {
    assert ("%" + q)[1..] == q;
    if s == [] {
      assert Like(s, "%" + q) <==> Like(s[0..], q);
    } else {
      LikeSuffix(s[1..], q);
      if Like(s, "%" + q) {
        if !Like(s, q) {
          var k :| 0 <= k <= |s[1..]| && Like(s[1..][k..], q);
          assert s[1..][k..] == s[k + 1..];
        } else {
          assert s[0..] == s;
        }
      }
      if exists k :: 0 <= k <= |s| && Like(s[k..], q) {
        var k :| 0 <= k <= |s| && Like(s[k..], q);
        if k == 0 {
          assert s[0..] == s;
        } else {
          assert s[1..][k - 1..] == s[k..];
        }
      }
    }
  }

  /** For a term without wildcards, `like '%term%'` is exactly the substring test. */
  lemma LikeContains(s: string, t: string)
    requires NoWildcards(t)
    ensures Like(s, "%" + t + "%") <==> HasInfix(s, t)
  {
    assert "%" + t + "%" == "%" + (t + "%");
    LikeSuffix(s, t + "%");
    forall k | 0 <= k <= |s|
      ensures Like(s[k..], t + "%") <==> OccursAt(s, t, k)
    {
      LikePrefix(s[k..], t);
      if |t| <= |s[k..]| {
        assert s[k..][..|t|] == s[k..k + |t|];
      }
    }
    if HasInfix(s, t) {
      var k :| OccursAt(s, t, k);
      assert Like(s[k..], t + "%");
    }
  }

  /** Lower-casing changes letters only, so it neither adds nor removes wildcards. */
  lemma LowerKeepsWildcards(t: string)
    ensures NoWildcards(Lower(t)) <==> NoWildcards(t)
  {
  }

  /** PHP's `trim` characters: space, tab, newline, carriage return, NUL, vertical tab. */
  predicate IsTrimmed(c: char) {
    c == ' ' || c == '\t' || c == '\n' || c == '\r' || c as int == 0 || c as int == 11
  }

  /** `trim($s) === ''`. */
  predicate IsBlank(s: string) {
    forall i :: 0 <= i < |s| ==> IsTrimmed(s[i])
  }

  /** Code-point lexicographic order on strings (the order `orderBy('name')` uses here). */
  predicate StrLe(a: string, b: string)
    decreases |a|
  {
    if a == [] then true
    else if b == [] then false
    else if a[0] != b[0] then a[0] < b[0]
    else StrLe(a[1..], b[1..])
  }

  lemma {:induction false} StrLeTotal(a: string, b: string)
    ensures StrLe(a, b) || StrLe(b, a)
    decreases |a|
  {
    if a != [] && b != [] && a[0] == b[0] {
      StrLeTotal(a[1..], b[1..]);
    }
  }

  lemma {:induction false} StrLeTrans(a: string, b: string, c: string)
    requires StrLe(a, b) && StrLe(b, c)
    ensures StrLe(a, c)
    decreases |a|
  {
    if a != [] && b != [] && c != [] && a[0] == b[0] && b[0] == c[0] {
      StrLeTrans(a[1..], b[1..], c[1..]);
    }
  }
}
