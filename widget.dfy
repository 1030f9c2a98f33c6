/** The `widgets` table and the `Widget` model: its columns, its mass-assignable fields,
    its query scopes and its accessors. The table is a sequence of rows in primary-key
    order; rows are only ever soft-deleted, so the ids stay 1, 2, 3, ... */
module Widgets {
  import opened Common

  const StatusActive: string := "active"
  const StatusInactive: string := "inactive"
  const StatusArchived: string := "archived"

  /** The values of the `status` enum column. */
  const Statuses: set<string> := {StatusActive, StatusInactive, StatusArchived}

  /** One row. `price` is the `decimal(10,2)` column as a whole number of cents. */
  datatype Widget = Widget(
    id: nat,
    name: string,
    description: Option<string>,
    price: Option<int>,
    quantity: int,
    status: string,
    metadata: Option<Metadata>,
    processedAt: Option<int>,
    emailSentAt: Option<int>,
    createdAt: int,
    updatedAt: int,
    deletedAt: Option<int>)

  /** The attributes `fill`/`create` accept. */
  const Fillable: seq<string> := ["name", "description", "price", "quantity", "status", "metadata"]

  /** Soft-deleted: the `SoftDeletes` global scope hides the row from ordinary queries. */
  predicate Trashed(w: Widget) {
    w.deletedAt.Some?
  }

  /** The rows an ordinary `Widget::query()` sees. */
  function WithoutTrashed(rows: seq<Widget>): (r: seq<Widget>)
    ensures forall i :: 0 <= i < |r| ==> r[i] in rows && !Trashed(r[i])
    ensures forall i :: 0 <= i < |rows| && !Trashed(rows[i]) ==> rows[i] in r
  {
    Filter(rows, (w: Widget) => !Trashed(w))
  }

  /** The auto-increment primary key: row `i` has id `i + 1`. */
  ghost predicate Dense(rows: seq<Widget>) {
    forall i :: 0 <= i < |rows| ==> rows[i].id == i + 1
  }

  /** The position of the row with primary key `id`, trashed or not. */
  function IndexOf(rows: seq<Widget>, id: nat): (r: Option<nat>)
    ensures r.Some? ==> r.value < |rows| && rows[r.value].id == id
    ensures r.Some? ==> forall j :: 0 <= j < r.value ==> rows[j].id != id
    ensures r.None? ==> forall i :: 0 <= i < |rows| ==> rows[i].id != id
  {
    if rows == [] then None
    else if rows[0].id == id then Some(0)
    else match IndexOf(rows[1..], id)
      case None => None
      case Some(k) => Some(k + 1)
  }

  /** In a table with dense keys the row with id `id` is row `id - 1`. */
  lemma DenseIndexOf(rows: seq<Widget>, id: nat)
    requires Dense(rows)
    ensures IndexOf(rows, id) == if 1 <= id <= |rows| then Some(id - 1) else None
  {
    if 1 <= id <= |rows| {
      var r := IndexOf(rows, id);
      assert rows[id - 1].id == id;
      assert r.Some? && rows[r.value].id == id;
    }
  }

  /** `Widget::find($id)`: the live row with that key, if there is one. */
  function Find(rows: seq<Widget>, id: nat): (r: Option<Widget>)
    ensures r.Some? ==> r.value in rows && r.value.id == id && !Trashed(r.value)
    ensures r.None? ==> forall i :: 0 <= i < |rows| && rows[i].id == id && !Trashed(rows[i]) ==>
                          exists j :: 0 <= j < i && rows[j].id == id
  {
    match IndexOf(rows, id)
    case None => None
    case Some(i) => if Trashed(rows[i]) then None else Some(rows[i])
  }

  /** In a table with dense keys `find` fails exactly for an unknown or soft-deleted key. */
  lemma FindDense(rows: seq<Widget>, id: nat)
    requires Dense(rows)
    ensures Find(rows, id).None? <==> !(1 <= id <= |rows|) || Trashed(rows[id - 1])
    ensures Find(rows, id).Some? ==> Find(rows, id).value == rows[id - 1]
  {
    DenseIndexOf(rows, id);
  }

  // ---------------------------------------------------------------- scopes

  /** `scopeActive`. */
  function Active(rows: seq<Widget>): (r: seq<Widget>)
    ensures forall i :: 0 <= i < |r| ==> r[i] in rows && r[i].status == StatusActive
    ensures forall i :: 0 <= i < |rows| && rows[i].status == StatusActive ==> rows[i] in r
  {
    Filter(rows, (w: Widget) => w.status == StatusActive)
  }

  /** `scopeInactive`. */
  function Inactive(rows: seq<Widget>): (r: seq<Widget>)
    ensures forall i :: 0 <= i < |r| ==> r[i] in rows && r[i].status == StatusInactive
    ensures forall i :: 0 <= i < |rows| && rows[i].status == StatusInactive ==> rows[i] in r
  {
    Filter(rows, (w: Widget) => w.status == StatusInactive)
  }

  /** The `like '%s%'` test of `scopeSearch` on one row: the name or the description
      matches the pattern `%s%`, ignoring ASCII case; `%` and `_` inside `s` are wildcards
      too, and a null description matches nothing. */
  predicate MatchesSearch(w: Widget, s: string) {
    var pattern := "%" + Lower(s) + "%";
    Like(Lower(w.name), pattern) || (w.description.Some? && Like(Lower(w.description.value), pattern))
  }

  /** A search term without wildcards is a substring test on the name or the description. */
  lemma SearchWithoutWildcards(w: Widget, s: string)
    requires NoWildcards(s)
    ensures MatchesSearch(w, s) <==>
              (exists k :: OccursAt(Lower(w.name), Lower(s), k)) ||
              (w.description.Some? && exists k :: OccursAt(Lower(w.description.value), Lower(s), k))
  {
    LowerKeepsWildcards(s);
    LikeContains(Lower(w.name), Lower(s));
    if w.description.Some? {
      LikeContains(Lower(w.description.value), Lower(s));
    }
  }

  /** An underscore in the term stands for any one character: "a_c" finds "abc", and so
      does "A%C", while "a_c" does not find "ac". */
  lemma SearchWildcardExamples(w: Widget)
    requires w.name == "abc" && w.description.None?
    ensures MatchesSearch(w, "a_c")
    ensures MatchesSearch(w, "A%C")
    ensures !MatchesSearch(w.(name := "ac"), "a_c")
  {
    assert Lower("abc") == "abc" && Lower("ac") == "ac";
    assert Lower("a_c") == "a_c" && Lower("A%C") == "a%c";
    assert "%" + "a_c" + "%" == "%a_c%";
    assert "%" + "a%c" + "%" == "%a%c%";
    UnderscoreMatchesOne();
    PercentMatchesRun();
    UnderscoreNeedsOne();
  }

  lemma UnderscoreMatchesOne()
    ensures Like("abc", "%a_c%")
  {
    assert Like("", "%");
    assert Like("abc", "a_c%");
  }

  lemma PercentMatchesRun()
    ensures Like("abc", "%a%c%")
  {
    assert Like("", "%");
    assert Like("c", "%c%");
    assert Like("bc", "%c%");
    assert Like("abc", "a%c%");
  }

  lemma UnderscoreNeedsOne()
    ensures !Like("ac", "%a_c%")
  {
    assert !Like("", "a_c%");
    assert !Like("c", "a_c%") && !Like("c", "%a_c%");
    assert !Like("ac", "a_c%");
  }

  /** `scopeSearch`. */
  function Search(rows: seq<Widget>, s: string): (r: seq<Widget>)
    ensures forall i :: 0 <= i < |r| ==> r[i] in rows && MatchesSearch(r[i], s)
    ensures forall i :: 0 <= i < |rows| && MatchesSearch(rows[i], s) ==> rows[i] in r
    ensures NoWildcards(s) ==> forall i :: 0 <= i < |r| ==>
      (exists k :: OccursAt(Lower(r[i].name), Lower(s), k)) ||
      (r[i].description.Some? && exists k :: OccursAt(Lower(r[i].description.value), Lower(s), k))
  {
    var r := Filter(rows, (w: Widget) => MatchesSearch(w, s));
    if NoWildcards(s) then SearchFindsTerm(r, s); r else r
  }

  lemma SearchFindsTerm(r: seq<Widget>, s: string)
    requires NoWildcards(s)
    requires forall i :: 0 <= i < |r| ==> MatchesSearch(r[i], s)
    ensures forall i :: 0 <= i < |r| ==>
      (exists k :: OccursAt(Lower(r[i].name), Lower(s), k)) ||
      (r[i].description.Some? && exists k :: OccursAt(Lower(r[i].description.value), Lower(s), k))
  {
    forall i | 0 <= i < |r|
      ensures (exists k :: OccursAt(Lower(r[i].name), Lower(s), k)) ||
              (r[i].description.Some? && exists k :: OccursAt(Lower(r[i].description.value), Lower(s), k))
    {
      SearchWithoutWildcards(r[i], s);
    }
  }

  /** The `where` clauses of `scopePriceRange` on one row: inclusive bounds, a null bound
      imposes nothing, and a null price fails every bound (SQL comparison with NULL). */
  predicate InPriceRange(w: Widget, minPrice: Option<int>, maxPrice: Option<int>) {
    (minPrice.Some? ==> w.price.Some? && w.price.value >= minPrice.value) &&
    (maxPrice.Some? ==> w.price.Some? && w.price.value <= maxPrice.value)
  }

  /** `scopePriceRange`. */
  function PriceRange(rows: seq<Widget>, minPrice: Option<int>, maxPrice: Option<int>): (r: seq<Widget>)
    ensures forall i :: 0 <= i < |r| ==> r[i] in rows && InPriceRange(r[i], minPrice, maxPrice)
    ensures forall i :: 0 <= i < |rows| && InPriceRange(rows[i], minPrice, maxPrice) ==> rows[i] in r
    ensures minPrice.None? && maxPrice.None? ==> r == rows
  {
    if minPrice.None? && maxPrice.None? then FilterAll(rows)
    else Filter(rows, (w: Widget) => InPriceRange(w, minPrice, maxPrice))
  }

  /** With both bounds null the price scope adds no clause. */
  function FilterAll(rows: seq<Widget>): (r: seq<Widget>)
    ensures r == Filter(rows, (w: Widget) => InPriceRange(w, None, None))
    ensures r == rows
  {
    assert forall w: Widget :: InPriceRange(w, None, None);
    FilterKeepsAll(rows, (w: Widget) => InPriceRange(w, None, None));
    rows
  }

  lemma {:induction false} FilterKeepsAll<T>(s: seq<T>, p: T -> bool)
    requires forall x :: p(x)
    ensures Filter(s, p) == s
  {
    if s != [] {
      FilterKeepsAll(s[1..], p);
      assert s == [s[0]] + s[1..];
    }
  }

  // ---------------------------------------------------------------- accessors

  function UpperChar(c: char): char {
    if 'a' <= c <= 'z' then (c as int - 32) as char else c
  }

  /** `getStatusLabelAttribute`: a known status with its first letter capitalised,
      anything else "Unknown". */
  function StatusLabel(status: string): (l: string)
    ensures status in Statuses ==> l == [UpperChar(status[0])] + status[1..]
    ensures status !in Statuses ==> l == "Unknown"
  {
    if status == StatusActive then "Active"
    else if status == StatusInactive then "Inactive"
    else if status == StatusArchived then "Archived"
    else "Unknown"
  }

  /** A status label says which enum value the row holds: distinct known statuses get
      distinct labels, and none of them is "Unknown". */
  lemma StatusLabelInjective(s: string, t: string)
    requires s in Statuses && t in Statuses && s != t
    ensures StatusLabel(s) != StatusLabel(t)
    ensures StatusLabel(s) != "Unknown"
  {
  }

  function DigitChar(d: int): char
    requires 0 <= d < 10
  {
    ('0' as int + d) as char
  }

  predicate IsDigit(c: char) {
    '0' <= c <= '9'
  }

  function Digits(n: nat): (s: string)
    ensures |s| >= 1
    ensures forall i :: 0 <= i < |s| ==> IsDigit(s[i])
  {
    if n < 10 then [DigitChar(n)] else Digits(n / 10) + [DigitChar(n % 10)]
  }

  /** A whole number with a comma between each group of three digits. */
  function Grouped(n: nat): (s: string)
    ensures |s| >= 1
  {
    if n < 1000 then Digits(n)
    else Grouped(n / 1000) + "," + [DigitChar(n % 1000 / 100), DigitChar(n % 100 / 10), DigitChar(n % 10)]
  }

  /** `number_format($price, 2)` on a price held in cents. */
  function FormatCents(c: int): (s: string)
    ensures |s| >= 4 && s[|s| - 3] == '.' && IsDigit(s[|s| - 2]) && IsDigit(s[|s| - 1])
    ensures (s[0] == '-') <==> c < 0
  {
    var a := if c < 0 then -c else c;
    var whole := Grouped(a / 100);
    assert whole == Digits(a / 100) || whole[0] == Grouped(a / 100 / 1000)[0] by {
      if a / 100 >= 1000 {
        assert whole == Grouped(a / 100 / 1000) + "," + [DigitChar(a / 100 % 1000 / 100), DigitChar(a / 100 % 100 / 10), DigitChar(a / 100 % 10)];
      }
    }
    GroupedStartsWithDigit(a / 100);
    (if c < 0 then "-" else "") + whole + "." + [DigitChar(a % 100 / 10), DigitChar(a % 10)]
  }

  lemma {:induction false} GroupedStartsWithDigit(n: nat)
    ensures IsDigit(Grouped(n)[0])
  {
    if n >= 1000 {
      GroupedStartsWithDigit(n / 1000);
    }
  }

  // A reader for `number_format` strings, the partner of `FormatCents`.

  function DigitValue(c: char): int {
    c as int - '0' as int
  }

  /** The number a string of decimal digits spells, most significant digit first. */
  function Numeral(s: string): int {
    if s == [] then 0 else Numeral(s[..|s| - 1]) * 10 + DigitValue(s[|s| - 1])
  }

  /** `s` with its thousands commas and its decimal point left out. */
  function Unpunctuated(s: string): (r: string)
    ensures |r| <= |s|
  {
    if s == [] then []
    else (if s[0] == ',' || s[0] == '.' then [] else [s[0]]) + Unpunctuated(s[1..])
  }

  /** Reads a formatted price back as cents: the optional minus sign, then every digit in
      order. There are always two decimals, so the digits spell the amount in cents. */
  function CentsValue(s: string): int {
    if |s| > 0 && s[0] == '-' then -Numeral(Unpunctuated(s[1..])) else Numeral(Unpunctuated(s))
  }

  lemma {:induction false} UnpunctuatedAppend(a: string, b: string)
    ensures Unpunctuated(a + b) == Unpunctuated(a) + Unpunctuated(b)
  {
    if a == [] {
      assert a + b == b;
    } else {
      assert (a + b)[0] == a[0] && (a + b)[1..] == a[1..] + b;
      UnpunctuatedAppend(a[1..], b);
      var head := if a[0] == ',' || a[0] == '.' then [] else [a[0]];
      assert Unpunctuated(a + b) == head + Unpunctuated(a[1..] + b);
      assert Unpunctuated(a) == head + Unpunctuated(a[1..]);
    }
  }

  lemma {:induction false} UnpunctuatedDigits(s: string)
    requires forall i :: 0 <= i < |s| ==> IsDigit(s[i])
    ensures Unpunctuated(s) == s
  {
    if s != [] {
      UnpunctuatedDigits(s[1..]);
      assert s == [s[0]] + s[1..];
    }
  }

  lemma NumeralPush(s: string, c: char)
    ensures Numeral(s + [c]) == Numeral(s) * 10 + DigitValue(c)
  {
    assert (s + [c])[..|s|] == s;
  }

  lemma {:induction false} NumeralDigits(n: nat)
    ensures Numeral(Digits(n)) == n
  {
    if n >= 10 {
      NumeralDigits(n / 10);
      NumeralPush(Digits(n / 10), DigitChar(n % 10));
    }
  }

  lemma SplitHundreds(a: nat)
    ensures a == a / 100 * 100 + a % 100 / 10 * 10 + a % 10
  {
    var q, r := a / 100, a % 100;
    var t, u := r / 10, r % 10;
    assert a == q * 100 + r;
    assert r == t * 10 + u;
    assert a == (q * 10 + t) * 10 + u;
    LastDigit(q * 10 + t, u);
  }

  lemma LastDigit(k: nat, u: nat)
    requires u < 10
    ensures (k * 10 + u) % 10 == u
  {
  }

  lemma SplitThousands(n: nat)
    ensures n == n / 1000 * 1000 + n % 1000 / 100 * 100 + n % 100 / 10 * 10 + n % 10
  {
    var q, m := n / 1000, n % 1000;
    assert n == q * 1000 + m;
    SplitHundreds(m);
    assert n == (q * 10 + m / 100) * 100 + m % 100;
    LastTwoDigits(q * 10 + m / 100, m % 100);
    assert m % 100 == n % 100;
    assert m % 10 == n % 10;
  }

  lemma LastTwoDigits(k: nat, u: nat)
    requires u < 100
    ensures (k * 100 + u) % 100 == u
    ensures (k * 100 + u) % 10 == u % 10
  {
    var t, v := u / 10, u % 10;
    assert u == t * 10 + v;
    var x := k * 100 + u;
    assert x == (k * 10 + t) * 10 + v;
    LastDigit(k * 10 + t, v);
  }

  /** The digits of a string followed by a punctuation mark and more digits. */
  lemma UnpunctuatedThen(g: string, mark: char, d: string)
    requires mark == ',' || mark == '.'
    requires forall i :: 0 <= i < |d| ==> IsDigit(d[i])
    ensures Unpunctuated(g + [mark] + d) == Unpunctuated(g) + d
  {
    UnpunctuatedAppend(g + [mark], d);
    UnpunctuatedAppend(g, [mark]);
    UnpunctuatedDigits(d);
    assert [mark][1..] == [];
    assert Unpunctuated([mark]) == [] + Unpunctuated([]);
    assert Unpunctuated(g + [mark]) == Unpunctuated(g);
  }

  lemma NumeralPush2(u: string, c0: char, c1: char)
    ensures Numeral(u + [c0, c1]) == Numeral(u) * 100 + DigitValue(c0) * 10 + DigitValue(c1)
  {
    NumeralPush(u, c0);
    assert u + [c0, c1] == (u + [c0]) + [c1];
    NumeralPush(u + [c0], c1);
  }

  lemma NumeralPush3(u: string, c0: char, c1: char, c2: char)
    ensures Numeral(u + [c0, c1, c2]) == Numeral(u) * 1000 + DigitValue(c0) * 100 + DigitValue(c1) * 10 + DigitValue(c2)
  {
    NumeralPush2(u, c0, c1);
    assert u + [c0, c1, c2] == (u + [c0, c1]) + [c2];
    NumeralPush(u + [c0, c1], c2);
  }

  /** The digits of `Grouped(n)`, commas left out, spell `n`. */
  lemma {:induction false} GroupedValue(n: nat)
    ensures Numeral(Unpunctuated(Grouped(n))) == n
  {
    if n < 1000 {
      UnpunctuatedDigits(Digits(n));
      NumeralDigits(n);
    } else {
      var g := Grouped(n / 1000);
      var d0, d1, d2 := DigitChar(n % 1000 / 100), DigitChar(n % 100 / 10), DigitChar(n % 10);
      assert Grouped(n) == g + [','] + [d0, d1, d2];
      UnpunctuatedThen(g, ',', [d0, d1, d2]);
      GroupedValue(n / 1000);
      NumeralPush3(Unpunctuated(g), d0, d1, d2);
      SplitThousands(n);
    }
  }

  /** `FormatCents` loses nothing: reading its result back gives the amount. */
  lemma FormatCentsRoundTrip(c: int)
    ensures CentsValue(FormatCents(c)) == c
  {
    var a := if c < 0 then -c else c;
    var whole := Grouped(a / 100);
    var f0, f1 := DigitChar(a % 100 / 10), DigitChar(a % 10);
    var body := whole + ['.'] + [f0, f1];
    assert FormatCents(c) == (if c < 0 then "-" else "") + body;
    GroupedStartsWithDigit(a / 100);
    assert body[0] == whole[0];
    if c < 0 {
      assert FormatCents(c)[1..] == body;
    } else {
      assert FormatCents(c) == body;
    }
    UnpunctuatedThen(whole, '.', [f0, f1]);
    GroupedValue(a / 100);
    NumeralPush2(Unpunctuated(whole), f0, f1);
    SplitHundreds(a);
  }

  lemma ShortDigits(n: nat)
    requires n < 1000
    ensures |Digits(n)| <= 3
  {
    if n >= 10 {
      assert Digits(n) == Digits(n / 10) + [DigitChar(n % 10)];
      if n / 10 >= 10 {
        assert Digits(n / 10) == Digits(n / 100) + [DigitChar(n / 10 % 10)];
      }
    }
  }

  /** Commas every fourth place counted back from the end, digits elsewhere. */
  ghost predicate CommaGrouped(g: string) {
    forall i :: 0 <= i < |g| ==> (g[i] == ',' <==> (|g| - i) % 4 == 0) && (g[i] == ',' || IsDigit(g[i]))
  }

  lemma CommaGroupedThen(h: string, d0: char, d1: char, d2: char)
    requires CommaGrouped(h) && IsDigit(d0) && IsDigit(d1) && IsDigit(d2)
    ensures CommaGrouped(h + [','] + [d0, d1, d2])
  {
    var g := h + [','] + [d0, d1, d2];
    assert |g| == |h| + 4;
    forall i | 0 <= i < |g|
      ensures (g[i] == ',' <==> (|g| - i) % 4 == 0) && (g[i] == ',' || IsDigit(g[i]))
    {
      if i < |h| {
        assert g[i] == h[i];
        assert (|g| - i) % 4 == (|h| - i) % 4;
      } else if i == |h| {
        assert g[i] == ',';
      } else {
        assert g[i] == [d0, d1, d2][i - |h| - 1];
        assert 1 <= |g| - i <= 3;
      }
    }
  }

  /** In `Grouped(n)` a comma stands exactly at every fourth place counted back from the
      end, and every other character is a digit: groups of three digits, and a first
      group of one to three. */
  lemma {:induction false} GroupedCommas(n: nat)
    ensures CommaGrouped(Grouped(n))
  {
    if n < 1000 {
      ShortDigits(n);
    } else {
      GroupedCommas(n / 1000);
      assert Grouped(n) == Grouped(n / 1000) + [','] +
        [DigitChar(n % 1000 / 100), DigitChar(n % 100 / 10), DigitChar(n % 10)];
      CommaGroupedThen(Grouped(n / 1000), DigitChar(n % 1000 / 100), DigitChar(n % 100 / 10), DigitChar(n % 10));
    }
  }

  /** In a formatted price, between the sign and the decimal point, commas stand exactly
      every four places back from the point, and digits everywhere else. */
  lemma FormatCentsCommas(c: int)
    ensures var s := FormatCents(c);
            var point := |s| - 3;
            var start := if c < 0 then 1 else 0;
            && start < point && s[point] == '.'
            && forall i :: start <= i < point ==>
                 (s[i] == ',' <==> (point - i) % 4 == 0) && (s[i] == ',' || IsDigit(s[i]))
  {
    var a := if c < 0 then -c else c;
    var whole := Grouped(a / 100);
    var sign := if c < 0 then "-" else "";
    var s := FormatCents(c);
    var tail := ['.', DigitChar(a % 100 / 10), DigitChar(a % 10)];
    assert s == sign + whole + tail;
    assert |s| - 3 == |sign| + |whole|;
    GroupedCommas(a / 100);
    forall i | |sign| <= i < |s| - 3
      ensures (s[i] == ',' <==> (|s| - 3 - i) % 4 == 0) && (s[i] == ',' || IsDigit(s[i]))
    {
      assert s[i] == whole[i - |sign|];
      assert |s| - 3 - i == |whole| - (i - |sign|);
    }
  }

  /** `getFormattedPriceAttribute`: null exactly when the price is null. */
  function FormattedPrice(price: Option<int>): (r: Option<string>)
    ensures r.None? <==> price.None?
    ensures r.Some? ==> r.value == FormatCents(price.value)
  {
    match price
    case None => None
    case Some(c) => Some(FormatCents(c))
  }

  /** 29.99 is shown as "29.99" and 1234567.89 as "1,234,567.89". */
  lemma FormattedPriceExamples()
    ensures FormattedPrice(Some(2999)) == Some("29.99")
    ensures FormattedPrice(Some(123456789)) == Some("1,234,567.89")
    ensures FormattedPrice(None) == None
  {
    assert Digits(2) == "2";
    assert Digits(29) == "29";
    assert Grouped(29) == "29";
    assert DigitChar(9) == '9';
    assert FormatCents(2999) == "" + "29" + "." + ['9', '9'];
    assert "" + "29" + "." + ['9', '9'] == "29.99";
    assert Digits(1) == "1";
    assert Grouped(1) == "1";
    assert Grouped(1234) == "1" + "," + ['2', '3', '4'];
    assert Grouped(1234567) == "1,234" + "," + ['5', '6', '7'];
    assert FormatCents(123456789) == "" + "1,234,567" + "." + ['8', '9'];
    assert "" + "1,234,567" + "." + ['8', '9'] == "1,234,567.89";
  }
}
