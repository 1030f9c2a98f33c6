/** `WidgetService`: the listing query (filters, a whitelisted sort, pagination), lookup,
    and the create / update / soft-delete operations with the jobs they enqueue. */
module WidgetService {
  import opened Common
  import opened Widgets
  import opened Infra
  import ProcessWidgetJob
  import SendWidgetFollowUpEmailJob

  // ---------------------------------------------------------------- filters

  /** The listing filters. A missing key and a null value are both `None`. */
  datatype Filters = Filters(
    search: Option<string>,
    status: Option<string>,
    minPrice: Option<int>,
    maxPrice: Option<int>,
    minQuantity: Option<int>,
    maxQuantity: Option<int>,
    sort: Option<string>,
    direction: Option<string>)

  const NoFilters: Filters := Filters(None, None, None, None, None, None, None, None)

  /** `isset($f[k]) && !empty($f[k])` on a string filter. */
  predicate Given(s: Option<string>) {
    s.Some? && !PhpEmpty(s.value)
  }

  /** The `where` clauses of `list` on one row, on top of the soft-delete scope. The
      search and status clauses apply only to a non-empty filter value; the price scope
      applies when either bound is set; the quantity bounds are inclusive. */
  predicate Selected(f: Filters, w: Widget) {
    && !Trashed(w)
    && (Given(f.search) ==> MatchesSearch(w, f.search.value))
    && (Given(f.status) ==> w.status == f.status.value)
    && InPriceRange(w, f.minPrice, f.maxPrice)
    && (f.minQuantity.Some? ==> w.quantity >= f.minQuantity.value)
    && (f.maxQuantity.Some? ==> w.quantity <= f.maxQuantity.value)
  }

  function SelectedBy(f: Filters): Widget -> bool {
    (w: Widget) => Selected(f, w)
  }

  /** The rows the filtered query matches, in key order. */
  function Matching(rows: seq<Widget>, f: Filters): (r: seq<Widget>)
    ensures forall i :: 0 <= i < |r| ==> r[i] in rows && Selected(f, r[i])
    ensures forall i :: 0 <= i < |rows| && Selected(f, rows[i]) ==> rows[i] in r
  {
    Filter(rows, SelectedBy(f))
  }

  /** An empty search or status value ("" or "0") is not applied at all. */
  lemma EmptyFiltersIgnored(f: Filters, w: Widget)
    requires f.search.Some? && PhpEmpty(f.search.value)
    requires f.status.Some? && PhpEmpty(f.status.value)
    ensures Selected(f, w) == Selected(f.(search := None, status := None), w)
  {
  }

  /** With no filters the listing keeps exactly the live rows. */
  lemma {:induction false} NoFiltersKeepsLive(rows: seq<Widget>)
    ensures Matching(rows, NoFilters) == WithoutTrashed(rows)
  {
    if rows != [] {
      NoFiltersKeepsLive(rows[1..]);
      assert SelectedBy(NoFilters)(rows[0]) == !Trashed(rows[0]);
    }
  }

  // ---------------------------------------------------------------- sorting

  datatype SortField = ByName | ByPrice | ByQuantity | ByCreatedAt
  datatype Order = Order(field: SortField, ascending: bool)

  const AllowedSortFields: seq<string> := ["name", "price", "quantity", "created_at"]

  /** The whitelisted column a `sort` value names. */
  function FieldOf(s: string): (r: Option<SortField>)
    ensures r.Some? <==> s in AllowedSortFields
  {
    if s == "name" then Some(ByName)
    else if s == "price" then Some(ByPrice)
    else if s == "quantity" then Some(ByQuantity)
    else if s == "created_at" then Some(ByCreatedAt)
    else None
  }

  /** The order `list` applies: the requested whitelisted column in the requested
      direction, `created_at` descending when the column is not whitelisted (the
      direction is then ignored). The query builder accepts only "asc" or "desc" in any
      letter case, and throws otherwise. */
  function ResolveOrder(sort: Option<string>, direction: Option<string>): (r: Result<Order>)
    ensures r.Err? <==> OrElse(sort, "created_at") in AllowedSortFields &&
                        Lower(OrElse(direction, "desc")) != "asc" && Lower(OrElse(direction, "desc")) != "desc"
    ensures r.Err? ==> r.failure == InvalidDirection
    ensures OrElse(sort, "created_at") !in AllowedSortFields ==> r == Ok(Order(ByCreatedAt, false))
    ensures r.Ok? && OrElse(sort, "created_at") in AllowedSortFields ==>
              r.value.field == FieldOf(OrElse(sort, "created_at")).value &&
              (r.value.ascending <==> Lower(OrElse(direction, "desc")) == "asc")
  {
    var sortField := OrElse(sort, "created_at");
    var sortDirection := Lower(OrElse(direction, "desc"));
    match FieldOf(sortField)
    case None => Ok(Order(ByCreatedAt, false))
    case Some(field) =>
      if sortDirection == "asc" then Ok(Order(field, true))
      else if sortDirection == "desc" then Ok(Order(field, false))
      else Err(InvalidDirection)
  }

  /** The ascending order on one column. A null price sorts before every price. */
  predicate KeyLe(field: SortField, a: Widget, b: Widget) {
    match field
    case ByName => StrLe(a.name, b.name)
    case ByPrice => a.price.None? || (b.price.Some? && a.price.value <= b.price.value)
    case ByQuantity => a.quantity <= b.quantity
    case ByCreatedAt => a.createdAt <= b.createdAt
  }

  /** `a` may come before `b` in order `o`. */
  predicate Before(o: Order, a: Widget, b: Widget) {
    if o.ascending then KeyLe(o.field, a, b) else KeyLe(o.field, b, a)
  }

  lemma BeforeTotal(o: Order, a: Widget, b: Widget)
    ensures Before(o, a, b) || Before(o, b, a)
  {
    if o.field.ByName? {
      StrLeTotal(a.name, b.name);
    }
  }

  lemma BeforeTrans(o: Order, a: Widget, b: Widget, c: Widget)
    requires Before(o, a, b) && Before(o, b, c)
    ensures Before(o, a, c)
  {
    if o.field.ByName? {
      if o.ascending {
        StrLeTrans(a.name, b.name, c.name);
      } else {
        StrLeTrans(c.name, b.name, a.name);
      }
    }
  }

  predicate Sorted(o: Order, s: seq<Widget>) {
    forall i, j :: 0 <= i < j < |s| ==> Before(o, s[i], s[j])
  }

  /** Insert `x` into the sorted `s` before the first element it may precede. */
  function Insert(o: Order, x: Widget, s: seq<Widget>): (r: seq<Widget>)
    requires Sorted(o, s)
    ensures Sorted(o, r)
    ensures multiset(r) == multiset(s) + multiset{x}
  {
    if s == [] then [x]
    else if Before(o, x, s[0]) then
      SmallestBeforeAll(o, x, s);
      assert multiset([x] + s) == multiset(s) + multiset{x};
      [x] + s
    else
      var t := Insert(o, x, s[1..]);
      BeforeTotal(o, x, s[0]);
      FirstBeforeAll(o, s[0], s[1..], t, x);
      assert s == [s[0]] + s[1..];
      [s[0]] + t
  }

  /** `x`, which may precede the head of the sorted `s`, may precede all of it. */
  lemma SmallestBeforeAll(o: Order, x: Widget, s: seq<Widget>)
    requires Sorted(o, s) && s != [] && Before(o, x, s[0])
    ensures forall k :: 0 <= k < |s| ==> Before(o, x, s[k])
  {
    forall k | 0 < k < |s| ensures Before(o, x, s[k]) {
      BeforeTrans(o, x, s[0], s[k]);
    }
  }

  /** `y`, which may precede `x` and every row of `s`, may precede every row of any
      rearrangement `t` of `s` plus `x`. */
  lemma FirstBeforeAll(o: Order, y: Widget, s: seq<Widget>, t: seq<Widget>, x: Widget)
    requires forall k :: 0 <= k < |s| ==> Before(o, y, s[k])
    requires Before(o, y, x) && multiset(t) == multiset(s) + multiset{x}
    ensures forall j :: 0 <= j < |t| ==> Before(o, y, t[j])
  {
    forall j | 0 <= j < |t| ensures Before(o, y, t[j]) {
      assert t[j] in multiset(t);
      if t[j] != x {
        assert t[j] in multiset(s);
        var k :| 0 <= k < |s| && s[k] == t[j];
      }
    }
  }

  /** A stable insertion sort: the rows in order `o`, ties in their original order. */
  function SortRows(o: Order, s: seq<Widget>): (r: seq<Widget>)
    ensures Sorted(o, r)
    ensures multiset(r) == multiset(s)
    ensures |r| == |s|
  {
    if s == [] then []
    else
      assert s == [s[0]] + s[1..];
      Insert(o, s[0], SortRows(o, s[1..]))
  }

  /** Zebra, Alpha, Beta sorted by name ascending come out Alpha, Beta, Zebra. */
  lemma SortByNameExample()
    ensures var z := Widget(1, "Zebra", None, None, 0, StatusActive, None, None, None, 0, 0, None);
            var a := Widget(2, "Alpha", None, None, 0, StatusActive, None, None, None, 0, 0, None);
            var b := Widget(3, "Beta", None, None, 0, StatusActive, None, None, None, 0, 0, None);
            SortRows(Order(ByName, true), [z, a, b]) == [a, b, z]
  {
    var z := Widget(1, "Zebra", None, None, 0, StatusActive, None, None, None, 0, 0, None);
    var a := Widget(2, "Alpha", None, None, 0, StatusActive, None, None, None, 0, 0, None);
    var b := Widget(3, "Beta", None, None, 0, StatusActive, None, None, None, 0, 0, None);
    var o := Order(ByName, true);
    NamesInOrder();
    assert SortRows(o, [b]) == [b] by {
      assert [b][1..] == [];
    }
    assert SortRows(o, [a, b]) == [a, b] by {
      assert [a, b][1..] == [b];
    }
    InsertLast(o, z, b);
    assert Insert(o, z, [a, b]) == [a] + Insert(o, z, [b]) by {
      assert [a, b][1..] == [b];
    }
    assert [z, a, b][1..] == [a, b];
  }

  lemma NamesInOrder()
    ensures StrLe("Alpha", "Beta") && StrLe("Beta", "Zebra") && !StrLe("Zebra", "Beta") && !StrLe("Zebra", "Alpha")
  {
  }

  lemma InsertLast(o: Order, x: Widget, y: Widget)
    requires !Before(o, x, y)
    ensures Insert(o, x, [y]) == [y, x]
  {
    assert [y][1..] == [];
  }

  // ---------------------------------------------------------------- pagination

  /** `getPerPage()` of the model, used when `paginate` is given 0. */
  const DefaultPerPage: nat := 15

  /** A length-aware page: the items of the current page, the number of matching rows,
      the page size, the current page number and the last page number. */
  datatype Page = Page(items: seq<Widget>, total: nat, perPage: nat, currentPage: nat, lastPage: nat)

  /** The number of rows before page `cur` at `pp` rows per page. */
  function Offset(cur: nat, pp: nat): (n: nat)
    requires cur >= 1
  {
    (cur - 1) * pp
  }

  /** `max((int) ceil($total / $perPage), 1)`: the fewest pages of `pp` rows holding
      `total` rows, and at least one. */
  function LastPage(total: nat, pp: nat): (n: nat)
    requires pp > 0
    ensures n >= 1 && total <= n * pp
    ensures total > 0 ==> (n - 1) * pp < total
    ensures total == 0 ==> n == 1
  {
    CeilDiv(total, pp);
    if total == 0 then 1 else (total + pp - 1) / pp
  }

  lemma CeilDiv(t: nat, pp: nat)
    requires pp > 0
    ensures t > 0 ==> (t + pp - 1) / pp >= 1
    ensures t <= ((t + pp - 1) / pp) * pp
    ensures t > 0 ==> ((t + pp - 1) / pp - 1) * pp < t
  {
    var q := (t + pp - 1) / pp;
    var m := (t + pp - 1) % pp;
    assert t + pp - 1 == q * pp + m && 0 <= m < pp;
    assert (q - 1) * pp == q * pp - pp;
  }

  /** `t` is the run of consecutive rows of `s` that starts at offset `lo`. */
  predicate WindowOf(t: seq<Widget>, s: seq<Widget>, lo: nat) {
    forall k :: 0 <= k < |t| ==> lo + k < |s| && t[k] == s[lo + k]
  }

  /** `paginate($perPage)` at page `page`; a page number below 1 is read as 1. The items
      are the rows from the page's offset on, as many as fit on one page. */
  function Paginate(s: seq<Widget>, perPage: nat, page: int): (p: Page)
    ensures p.perPage == (if perPage == 0 then 15 else perPage) && p.perPage > 0
    ensures p.total == |s|
    ensures p.currentPage == (if page >= 1 then page else 1)
    ensures p.lastPage == LastPage(|s|, p.perPage)
    ensures |p.items| <= p.perPage
    ensures |p.items| == p.perPage || Offset(p.currentPage, p.perPage) + |p.items| >= |s|
    ensures WindowOf(p.items, s, Offset(p.currentPage, p.perPage))
  {
    var pp := if perPage == 0 then DefaultPerPage else perPage;
    var cur: nat := if page >= 1 then page else 1;
    var lo := Offset(cur, pp);
    var from := if lo < |s| then lo else |s|;
    var to := if lo + pp < |s| then lo + pp else |s|;
    Page(s[from..to], |s|, pp, cur, LastPage(|s|, pp))
  }

  /** Every matching row appears on exactly the page its position says, at the offset its
      position says. */
  lemma EveryRowOnItsPage(s: seq<Widget>, perPage: nat, i: nat)
    requires i < |s|
    ensures var pp := if perPage == 0 then 15 else perPage;
            var p := Paginate(s, perPage, i / pp + 1);
            i % pp < |p.items| && p.items[i % pp] == s[i]
  {
    var pp := if perPage == 0 then 15 else perPage;
    assert Offset(i / pp + 1, pp) == (i / pp) * pp;
    assert i == (i / pp) * pp + i % pp;
  }

  /** Twenty-five matching rows at ten per page: ten items on page 1, three pages. */
  lemma PaginationScenario(s: seq<Widget>)
    requires |s| == 25
    ensures var p := Paginate(s, 10, 1);
            |p.items| == 10 && p.total == 25 && p.lastPage == 3
  {
  }

  // ---------------------------------------------------------------- list

  /** `list($filters, $perPage)` at page `page`: filter, order, paginate. */
  function List(rows: seq<Widget>, f: Filters, perPage: nat, page: int): (r: Result<Page>)
    ensures r.Err? <==> ResolveOrder(f.sort, f.direction).Err?
    ensures r.Err? ==> r.failure == InvalidDirection
    ensures r.Ok? ==> r.value.total == |Matching(rows, f)|
    ensures r.Ok? ==> forall i :: 0 <= i < |r.value.items| ==>
              r.value.items[i] in rows && Selected(f, r.value.items[i])
    ensures r.Ok? ==> Sorted(ResolveOrder(f.sort, f.direction).value, r.value.items)
    ensures r.Ok? ==> |r.value.items| <= r.value.perPage
    ensures r.Ok? ==>
      && r.value.perPage == (if perPage == 0 then 15 else perPage)
      && r.value.currentPage == (if page >= 1 then page else 1)
      && r.value.lastPage == LastPage(|Matching(rows, f)|, r.value.perPage)
    ensures r.Ok? ==>
      var s := SortRows(ResolveOrder(f.sort, f.direction).value, Matching(rows, f));
      var lo := Offset(r.value.currentPage, r.value.perPage);
      && (|r.value.items| == r.value.perPage || lo + |r.value.items| >= |s|)
      && WindowOf(r.value.items, s, lo)
  {
    var order := ResolveOrder(f.sort, f.direction);
    if order.Err? then Err(order.failure)
    else
      ListInSorted(order.value, rows, f, perPage, page);
      ListInSelected(order.value, rows, f, perPage, page);
      Ok(ListIn(order.value, rows, f, perPage, page))
  }

  /** The page `List` returns once the order is resolved to `o`. */
  function ListIn(o: Order, rows: seq<Widget>, f: Filters, perPage: nat, page: int): (p: Page)
    ensures p.total == |Matching(rows, f)|
    ensures |p.items| <= p.perPage
    ensures p.perPage == (if perPage == 0 then 15 else perPage)
    ensures p.currentPage == (if page >= 1 then page else 1)
    ensures p.lastPage == LastPage(|Matching(rows, f)|, p.perPage)
    ensures var s := SortRows(o, Matching(rows, f));
            var lo := Offset(p.currentPage, p.perPage);
            && (|p.items| == p.perPage || lo + |p.items| >= |s|)
            && WindowOf(p.items, s, lo)
  {
    Paginate(SortRows(o, Matching(rows, f)), perPage, page)
  }

  /** The page is sorted in the resolved order. */
  lemma ListInSorted(o: Order, rows: seq<Widget>, f: Filters, perPage: nat, page: int)
    ensures Sorted(o, ListIn(o, rows, f, perPage, page).items)
  {
    PageOfSorted(o, SortRows(o, Matching(rows, f)), perPage, page);
  }

  /** The page holds only rows of the table that the filters select. */
  lemma ListInSelected(o: Order, rows: seq<Widget>, f: Filters, perPage: nat, page: int)
    ensures var p := ListIn(o, rows, f, perPage, page);
            forall i :: 0 <= i < |p.items| ==> p.items[i] in rows && Selected(f, p.items[i])
  {
    PageFromRows(rows, f, SortRows(o, Matching(rows, f)), perPage, page);
  }

  /** Every matching row, in the resolved order, is listed on the page its rank says, at
      the slot its rank says. */
  lemma ListEveryRowOnItsPage(rows: seq<Widget>, f: Filters, perPage: nat, i: nat, o: Order)
    requires ResolveOrder(f.sort, f.direction) == Ok(o) && i < |Matching(rows, f)|
    ensures i < |SortRows(o, Matching(rows, f))|
    ensures var pp := if perPage == 0 then 15 else perPage;
            var r := List(rows, f, perPage, i / pp + 1);
            r.Ok? && i % pp < |r.value.items| && r.value.items[i % pp] == SortRows(o, Matching(rows, f))[i]
  {
    EveryRowOnItsPage(SortRows(o, Matching(rows, f)), perPage, i);
  }

  /** A page of a sorted sequence is sorted. */
  lemma PageOfSorted(o: Order, s: seq<Widget>, perPage: nat, page: int)
    requires Sorted(o, s)
    ensures Sorted(o, Paginate(s, perPage, page).items)
  {
    var p := Paginate(s, perPage, page);
    SortedWindow(o, s, p.items, Offset(p.currentPage, p.perPage));
  }

  /** A run of consecutive rows of a sorted sequence is sorted. */
  lemma SortedWindow(o: Order, s: seq<Widget>, t: seq<Widget>, lo: nat)
    requires Sorted(o, s)
    requires forall k :: 0 <= k < |t| ==> lo + k < |s| && t[k] == s[lo + k]
    ensures Sorted(o, t)
  {
    forall i, j | 0 <= i < j < |t| ensures Before(o, t[i], t[j]) {
      var x, y := t[i], t[j];
      assert lo + i < |s| && x == s[lo + i];
      assert lo + j < |s| && y == s[lo + j];
      assert Before(o, s[lo + i], s[lo + j]);
    }
  }

  /** A page of any arrangement of the matching rows holds only matching rows, and counts
      all of them. */
  lemma PageFromRows(rows: seq<Widget>, f: Filters, s: seq<Widget>, perPage: nat, page: int)
    requires multiset(s) == multiset(Matching(rows, f))
    ensures Paginate(s, perPage, page).total == |Matching(rows, f)|
    ensures forall i :: 0 <= i < |Paginate(s, perPage, page).items| ==>
              Paginate(s, perPage, page).items[i] in rows && Selected(f, Paginate(s, perPage, page).items[i])
  {
    var matching := Matching(rows, f);
    assert |s| == |matching| by {
      assert |multiset(s)| == |multiset(matching)|;
    }
    var p := Paginate(s, perPage, page);
    var lo := Offset(p.currentPage, p.perPage);
    forall i | 0 <= i < |p.items| ensures p.items[i] in rows && Selected(f, p.items[i]) {
      assert p.items[i] == s[lo + i];
      assert s[lo + i] in multiset(matching);
      assert s[lo + i] in matching;
    }
  }

  /** Ordering never changes which rows are listed: across all pages the listing holds
      each matching row once. */
  lemma ListIsPermutation(rows: seq<Widget>, f: Filters)
    requires ResolveOrder(f.sort, f.direction).Ok?
    ensures multiset(SortRows(ResolveOrder(f.sort, f.direction).value, Matching(rows, f))) ==
            multiset(Filter(rows, SelectedBy(f)))
  {
  }

  function QuantitySample(): seq<Widget> {
    var w := Widget(1, "a", None, None, 0, StatusActive, None, None, None, 0, 0, None);
    [w.(id := 1, quantity := 10), w.(id := 2, quantity := 25),
     w.(id := 3, quantity := 50), w.(id := 4, quantity := 100)]
  }

  /** Four widgets with quantities 10, 25, 50, 100 and bounds [20, 75]: two match. */
  lemma QuantityRangeExample()
    ensures var r := List(QuantitySample(), NoFilters.(minQuantity := Some(20), maxQuantity := Some(75)), 15, 1);
            r.Ok? && r.value.total == 2
  {
    QuantityRangeMatching();
  }

  /** Of those four rows, exactly the second and the third lie within [20, 75]. */
  lemma QuantityRangeMatching()
    ensures var rows := QuantitySample();
            Matching(rows, NoFilters.(minQuantity := Some(20), maxQuantity := Some(75))) == [rows[1], rows[2]]
  {
    var rows := QuantitySample();
    var f := NoFilters.(minQuantity := Some(20), maxQuantity := Some(75));
    var p := SelectedBy(f);
    assert !p(rows[0]) && p(rows[1]) && p(rows[2]) && !p(rows[3]);
    assert rows[1..] == [rows[1], rows[2], rows[3]];
    assert rows[1..][1..] == [rows[2], rows[3]];
    assert rows[1..][1..][1..] == [rows[3]];
    assert [rows[3]][1..] == [];
    assert Filter([rows[3]], p) == [];
    assert Filter([rows[2], rows[3]], p) == [rows[2]];
    assert Filter([rows[1], rows[2], rows[3]], p) == [rows[1], rows[2]];
  }

  // ---------------------------------------------------------------- find and search

  /** `find($id)`: the live row, or `ModelNotFoundException`. */
  function FindOrFail(rows: seq<Widget>, id: nat): (r: Result<Widget>)
    ensures r.Err? <==> Find(rows, id).None?
    ensures r.Err? ==> r.failure == NotFound
    ensures r.Ok? ==> r.value in rows && r.value.id == id && !Trashed(r.value)
  {
    match Find(rows, id)
    case None => Err(NotFound)
    case Some(w) => Ok(w)
  }

  /** `search($query)`: the live rows matching the search scope. The `$fields` argument is
      accepted and ignored, and an empty query is not skipped: it matches every live row. */
  function SearchWidgets(rows: seq<Widget>, query: string): (r: seq<Widget>)
    ensures forall i :: 0 <= i < |r| ==> r[i] in rows && !Trashed(r[i]) && MatchesSearch(r[i], query)
    ensures forall i :: 0 <= i < |rows| && !Trashed(rows[i]) && MatchesSearch(rows[i], query) ==> rows[i] in r
  {
    Filter(rows, (w: Widget) => !Trashed(w) && MatchesSearch(w, query))
  }

  /** The empty query matches every name, so `search("")` returns every live row. */
  lemma EmptySearchMatchesAll(w: Widget)
    ensures MatchesSearch(w, "")
  {
    assert "%" + Lower("") + "%" == "%%";
    LikeAnything(Lower(w.name));
  }

  // ---------------------------------------------------------------- create, update, delete

  /** The fillable attributes a call supplies. `None` means the key is absent; `Some(None)`
      means it is present with a null value. */
  datatype WidgetInput = WidgetInput(
    name: Option<Option<string>>,
    description: Option<Option<string>>,
    price: Option<Option<int>>,
    quantity: Option<Option<int>>,
    status: Option<Option<string>>,
    metadata: Option<Option<Metadata>>)

  const NoInput: WidgetInput := WidgetInput(None, None, None, None, None, None)

  /** Another row (trashed rows included: the unique index covers them) holds `name`. */
  predicate NameTaken(rows: seq<Widget>, name: string, selfId: nat) {
    exists i :: 0 <= i < |rows| && rows[i].id != selfId && rows[i].name == name
  }

  /** The database refuses the write: a null into a NOT NULL column, a status outside the
      enum, or a name another row holds. */
  predicate Rejected(rows: seq<Widget>, data: WidgetInput, selfId: nat) {
    || data.name == Some(None)
    || data.quantity == Some(None)
    || data.status == Some(None)
    || (data.status.Some? && data.status.value.Some? && data.status.value.value !in Statuses)
    || (data.name.Some? && data.name.value.Some? && NameTaken(rows, data.name.value.value, selfId))
  }

  /** `Widget::create` also fails when no name is given: the column has no default. */
  predicate CreateRejected(rows: seq<Widget>, data: WidgetInput) {
    data.name.None? || Rejected(rows, data, |rows| + 1)
  }

  /** The row `create` inserts: the next key, the supplied attributes, the column defaults
      (quantity 0, status active, everything else null) and both timestamps `now`. */
  function NewRow(rows: seq<Widget>, data: WidgetInput, now: int): (w: Widget)
    requires !CreateRejected(rows, data)
    ensures w.id == |rows| + 1 && w.name == data.name.value.value
    ensures w.quantity == (if data.quantity.None? then 0 else data.quantity.value.value)
    ensures w.status == (if data.status.None? then "active" else data.status.value.value)
    ensures w.status in Statuses
    ensures w.description == OrElse(data.description, None) && w.price == OrElse(data.price, None)
    ensures w.metadata == OrElse(data.metadata, None)
    ensures w.processedAt.None? && w.emailSentAt.None? && w.deletedAt.None?
    ensures w.createdAt == now && w.updatedAt == now
  {
    Widget(
      |rows| + 1,
      data.name.value.value,
      OrElse(data.description, None),
      OrElse(data.price, None),
      if data.quantity.None? then 0 else data.quantity.value.value,
      if data.status.None? then StatusActive else data.status.value.value,
      OrElse(data.metadata, None),
      None, None, now, now, None)
  }

  /** `fill($data)`: each supplied attribute overwrites the row's, every other attribute
      keeps its value. Nulls into NOT NULL columns never reach here (`Rejected`). */
  function Fill(w: Widget, data: WidgetInput): (r: Widget)
    ensures data.name.None? ==> r.name == w.name
    ensures data.name.Some? && data.name.value.Some? ==> r.name == data.name.value.value
    ensures r.description == OrElse(data.description, w.description)
    ensures r.price == OrElse(data.price, w.price)
    ensures data.quantity.None? ==> r.quantity == w.quantity
    ensures data.quantity.Some? && data.quantity.value.Some? ==> r.quantity == data.quantity.value.value
    ensures data.status.None? ==> r.status == w.status
    ensures data.status.Some? && data.status.value.Some? ==> r.status == data.status.value.value
    ensures r.metadata == OrElse(data.metadata, w.metadata)
    ensures r.(name := w.name, description := w.description, price := w.price, quantity := w.quantity,
               status := w.status, metadata := w.metadata) == w
  {
    w.(name := if data.name.Some? && data.name.value.Some? then data.name.value.value else w.name,
       description := OrElse(data.description, w.description),
       price := OrElse(data.price, w.price),
       quantity := if data.quantity.Some? && data.quantity.value.Some? then data.quantity.value.value else w.quantity,
       status := if data.status.Some? && data.status.value.Some? then data.status.value.value else w.status,
       metadata := OrElse(data.metadata, w.metadata))
  }

  /** Filling nothing changes nothing, and filling the same data twice is filling it once. */
  lemma FillLaws(w: Widget, data: WidgetInput)
    ensures Fill(w, NoInput) == w
    ensures Fill(Fill(w, data), data) == Fill(w, data)
  {
  }

  /** `delete()` under `SoftDeletes`: stamp `deleted_at` and `updated_at`. */
  function SoftDeleted(w: Widget, now: int): (r: Widget)
    ensures Trashed(r) && r.deletedAt == Some(now) && r.updatedAt == now
    ensures r.(deletedAt := w.deletedAt, updatedAt := w.updatedAt) == w
  {
    w.(deletedAt := Some(now), updatedAt := now)
  }

  /** No two rows share a name: the unique index on `name`. */
  ghost predicate UniqueNames(rows: seq<Widget>) {
    forall i, j :: 0 <= i < j < |rows| ==> rows[i].name != rows[j].name
  }

  /** A successful create keeps keys dense and names unique, and the new row can then be
      found under its key. */
  lemma CreateKeepsInvariants(rows: seq<Widget>, data: WidgetInput, now: int)
    requires Dense(rows) && UniqueNames(rows) && !CreateRejected(rows, data)
    ensures Dense(rows + [NewRow(rows, data, now)])
    ensures UniqueNames(rows + [NewRow(rows, data, now)])
    ensures Find(rows + [NewRow(rows, data, now)], |rows| + 1) == Some(NewRow(rows, data, now))
  {
    var w := NewRow(rows, data, now);
    var rows' := rows + [w];
    assert forall i :: 0 <= i < |rows| ==> rows[i].id != |rows| + 1;
    FindDense(rows', |rows| + 1);
  }

  /** A successful update keeps names unique. */
  lemma UpdateKeepsUniqueNames(rows: seq<Widget>, i: nat, data: WidgetInput, now: int)
    requires Dense(rows) && UniqueNames(rows) && i < |rows|
    requires !Rejected(rows, data, rows[i].id)
    ensures UniqueNames(rows[i := Saved(rows[i], Fill(rows[i], data), now)])
  {
    var w := Saved(rows[i], Fill(rows[i], data), now);
    var rows' := rows[i := w];
    forall a, b | 0 <= a < b < |rows'| ensures rows'[a].name != rows'[b].name {
      if a == i {
        assert rows[b].id != rows[i].id;
      } else if b == i {
        assert rows[a].id != rows[i].id;
      }
    }
  }

  /** After a soft delete the key is no longer found, and every other key is found exactly
      as before. */
  lemma DeleteThenFind(rows: seq<Widget>, i: nat, id: nat, now: int)
    requires Dense(rows) && i < |rows|
    ensures Find(rows[i := SoftDeleted(rows[i], now)], i + 1).None?
    ensures id != i + 1 ==> Find(rows[i := SoftDeleted(rows[i], now)], id) == Find(rows, id)
  {
    var rows' := rows[i := SoftDeleted(rows[i], now)];
    assert Dense(rows');
    FindDense(rows', i + 1);
    FindDense(rows', id);
    FindDense(rows, id);
  }

  /** `create($data)`: insert the row, then enqueue the processing job and the follow-up
      mail job 24 hours out, in that order. A rejected insert throws before anything is
      enqueued. */
  method Create(table: WidgetTable, queue: JobQueue, data: WidgetInput, now: int) returns (r: Result<Widget>)
    requires table.Valid()
    modifies table, queue
    ensures table.Valid()
    ensures CreateRejected(old(table.rows), data) ==>
      r == Err(QueryError) && table.rows == old(table.rows) && queue.jobs == old(queue.jobs)
    ensures !CreateRejected(old(table.rows), data) ==>
      var w := NewRow(old(table.rows), data, now);
      && r == Ok(w)
      && table.rows == old(table.rows) + [w]
      && queue.jobs == old(queue.jobs) + [Pending(ProcessWidget(w.id), None, 3, 60),
                                          Pending(SendFollowUp(w.id), Some(now + 86400), 3, 30)]
  {
    if CreateRejected(table.rows, data) {
      return Err(QueryError);
    }
    var widget := NewRow(table.rows, data, now);
    table.rows := table.rows + [widget];
    ProcessWidgetJob.Dispatch(queue, widget.id);
    SendWidgetFollowUpEmailJob.Dispatch(queue, widget.id, now);
    r := Ok(widget);
  }

  /** `update($id, $data, $partial)`. Both branches of `$partial` call `fill` the same way,
      so nothing here depends on it. `save()` writes only when something changed; the
      processing job is enqueued either way. */
  method Update(table: WidgetTable, queue: JobQueue, id: nat, data: WidgetInput, partial: bool, now: int)
    returns (r: Result<Widget>)
    requires table.Valid()
    modifies table, queue
    ensures table.Valid()
    ensures Find(old(table.rows), id).None? ==>
      r == Err(NotFound) && table.rows == old(table.rows) && queue.jobs == old(queue.jobs)
    ensures Find(old(table.rows), id).Some? && Rejected(old(table.rows), data, id) ==>
      r == Err(QueryError) && table.rows == old(table.rows) && queue.jobs == old(queue.jobs)
    ensures Find(old(table.rows), id).Some? && !Rejected(old(table.rows), data, id) ==>
      var i := id - 1;
      var w := Saved(old(table.rows)[i], Fill(old(table.rows)[i], data), now);
      && table.rows == old(table.rows)[i := w]
      && r == Ok(w)
      && queue.jobs == old(queue.jobs) + [Pending(ProcessWidget(id), None, 3, 60)]
  {
    FindDense(table.rows, id);
    var found := FindOrFail(table.rows, id);
    if found.Err? {
      return Err(NotFound);
    }
    var widget := found.value;
    if Rejected(table.rows, data, id) {
      return Err(QueryError);
    }
    if partial {
      widget := Saved(widget, Fill(widget, data), now);
    } else {
      widget := Saved(widget, Fill(widget, data), now);
    }
    table.rows := table.rows[id - 1 := widget];
    ProcessWidgetJob.Dispatch(queue, id);
    r := Ok(widget);
  }

  /** `delete($id)`: soft-delete the live row, returning true. */
  method Delete(table: WidgetTable, id: nat, now: int) returns (r: Result<bool>)
    requires table.Valid()
    modifies table
    ensures table.Valid()
    ensures Find(old(table.rows), id).None? ==> r == Err(NotFound) && table.rows == old(table.rows)
    ensures Find(old(table.rows), id).Some? ==>
      r == Ok(true) && table.rows == old(table.rows)[id - 1 := SoftDeleted(old(table.rows)[id - 1], now)]
  {
    FindDense(table.rows, id);
    var found := FindOrFail(table.rows, id);
    if found.Err? {
      return Err(NotFound);
    }
    table.rows := table.rows[id - 1 := SoftDeleted(found.value, now)];
    r := Ok(true);
  }
}
