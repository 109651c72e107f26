/** The State Bar of Texas scraper: the three-strategy search for result
    blocks on a page, the table-row and div extractors, the counting loop,
    "Next"-link pagination and the two searches. */
module TexasBar {
  import opened Wrappers
  import opened Strings
  import opened Html
  import opened Patterns

  const BaseUrl: string := "https://www.texasbar.com"
  const ApiUrl: string := "https://www.texasbar.com/AM/CustomSource/MemberDirectory/Search.cfm"

  /** The classes of `.attorney-result, .member-listing, .search-result`. */
  const ResultClasses: seq<string> := ["attorney-result", "member-listing", "search-result"]

  /** The tags that may hold the name of an attorney in a div result. */
  const NameTags: seq<string> := ["h2", "h3", "h4", "a", "strong"]

  /** The cities a table cell is recognised as. */
  const TableCities: seq<string> := ["Houston", "Dallas", "Austin", "San Antonio", "Fort Worth"]

  /** The record an extractor returns.  A table row has no `firm_name` key;
      it is `None` here. */
  datatype Attorney = Attorney(
    barNumber: Option<string>,
    fullName: string,
    firstName: Option<string>,
    lastName: Option<string>,
    status: string,
    city: Option<string>,
    firmName: Option<string>,
    practiceAreas: seq<string>)

  /** The scraper's inherited helpers, whose bodies are not part of this
      model: `clean_text`, `parse_name` and `save_attorney`.  Each may raise. */
  datatype Helpers = Helpers(
    clean: Option<string> -> Try<Option<string>>,
    parseName: string -> Try<(Option<string>, Option<string>)>,
    save: Attorney -> Try<()>)

  /** Form fields of a POST, in the order the source writes them. */
  type FormData = seq<(string, string)>

  /** `post_page` and `get_page` followed by parsing: a falsy response is
      `None`, a parsed response is `Some(page)`. */
  datatype Web = Web(
    post: (string, FormData) -> Try<Option<Page>>,
    get: string -> Try<Option<Page>>)

  predicate IsTagNamed(e: Element, name: string) {
    e.Tag? && e.name == name
  }

  predicate IsAnyTag(e: Element) {
    e.Tag?
  }

  predicate IsRow(e: Element) {
    IsTagNamed(e, "tr")
  }

  predicate IsCell(e: Element) {
    IsTagNamed(e, "td")
  }

  predicate IsLink(e: Element) {
    IsTagNamed(e, "a")
  }

  /** What the first strategy selects: an element with one of the three result classes. */
  predicate HasResultClass(e: Element) {
    e.Tag? && exists c :: c in e.classes && c in ResultClasses
  }

  /** What the second strategy looks for: a `table` with a class matching
      the result-class pattern. */
  predicate IsResultTable(e: Element) {
    IsTagNamed(e, "table") && exists c :: c in e.classes && ResultClassLike(c)
  }

  /** What the third strategy looks for: a `div` with a class matching the
      result-class pattern. */
  predicate IsResultDiv(e: Element) {
    IsTagNamed(e, "div") && exists c :: c in e.classes && ResultClassLike(c)
  }

  predicate IsNameTag(e: Element) {
    e.Tag? && e.name in NameTags
  }

  /** A text node the firm-label search finds. */
  predicate IsFirmLabel(e: Element) {
    e.Text? && FirmLabel(e.text)
  }

  /** A link whose string contains a match of the pager pattern. */
  predicate IsPager(e: Element) {
    IsLink(e) && StringOf(e).Some? && NextLabel(StringOf(e).value)
  }

  /** Python's `xs[1:]`. */
  function Drop1<T>(xs: seq<T>): (r: seq<T>)
    ensures r == if xs == [] then [] else xs[1..]
  {
    if xs == [] then [] else xs[1..]
  }

  lemma ElemsDrop1(ls: seq<Located>)
    ensures Elems(Drop1(ls)) == Drop1(Elems(ls))
  {
    if ls != [] {
      assert Elems(ls) == [ls[0].elem] + Elems(ls[1..]);
    }
  }

  // ---------------------------------------------------------------------
  // The cascade of strategies

  /** Strategy one: every tag with one of the three result classes. */
  function ClassStrategy(page: Page): seq<Located> {
    Keep(Walk(page, []), HasResultClass)
  }

  /** The first table in the document whose class looks like a result list. */
  function FirstResultTable(page: Page): Option<Located> {
    FirstWhere(Walk(page, []), IsResultTable)
  }

  /** `table.find_all('tr')`: every row below the table, nested ones included. */
  function TableRows(table: Located): seq<Located> {
    Keep(Walk(ChildrenOf(table.elem), table.following), IsRow)
  }

  /** Strategy two: the rows of the first result table, header row dropped. */
  function TableStrategy(page: Page): seq<Located> {
    match FirstResultTable(page)
    case None => []
    case Some(t) => Drop1(TableRows(t))
  }

  /** Strategy three: every div whose class looks like a result. */
  function DivStrategy(page: Page): seq<Located> {
    Keep(Walk(page, []), IsResultDiv)
  }

  /** The result blocks of a page: the first strategy that finds any. */
  function Candidates(page: Page): seq<Located> {
    var byClass := ClassStrategy(page);
    if byClass != [] then byClass
    else
      var byTable := TableStrategy(page);
      if byTable != [] then byTable else DivStrategy(page)
  }

  lemma KeepFound(page: Page, p: Element -> bool, k: int)
    requires 0 <= k < |Flatten(page)| && p(Flatten(page)[k])
    ensures Keep(Walk(page, []), p) != []
  {
    var f := Flatten(page);
    FilterMembers(f, p);
    assert f[k] in Filter(f, p);
    assert Elems(Keep(Walk(page, []), p)) == Filter(f, p);
  }

  lemma KeepWitness(page: Page, p: Element -> bool) returns (k: int)
    requires Keep(Walk(page, []), p) != []
    ensures 0 <= k < |Flatten(page)| && p(Flatten(page)[k])
  {
    var f := Flatten(page);
    var c := Keep(Walk(page, []), p);
    assert Elems(c) == Filter(f, p);
    FilterMembers(f, p);
    assert Elems(c)[0] in f;
    k :| 0 <= k < |f| && f[k] == Elems(c)[0];
  }

  /** A selection over the whole document is non-empty exactly when some
      node of the document satisfies its test. */
  lemma KeepNonEmpty(page: Page, p: Element -> bool)
    ensures Keep(Walk(page, []), p) != [] <==> exists k :: 0 <= k < |Flatten(page)| && p(Flatten(page)[k])
  {
    if Keep(Walk(page, []), p) != [] {
      var k := KeepWitness(page, p);
    }
    if exists k :: 0 <= k < |Flatten(page)| && p(Flatten(page)[k]) {
      var k :| 0 <= k < |Flatten(page)| && p(Flatten(page)[k]);
      KeepFound(page, p, k);
    }
  }

  /** Strategy one yields something exactly when some tag of the document
      carries a result class, and then the other two strategies contribute
      nothing: every candidate carries a result class. */
  lemma ClassStrategyWins(page: Page)
    ensures ClassStrategy(page) != [] <==> exists k :: 0 <= k < |Flatten(page)| && HasResultClass(Flatten(page)[k])
    ensures ClassStrategy(page) != [] ==>
              Candidates(page) == ClassStrategy(page)
              && forall c :: c in Candidates(page) ==> HasResultClass(c.elem)
  {
    KeepNonEmpty(page, HasResultClass);
    KeepMembers(Walk(page, []), HasResultClass);
  }

  /** With no result-class tag and a result table with a header row and at
      least one more row, the candidates are the table's rows in document
      order, minus the first, and the table is the first result table of
      the document. */
  lemma TableStrategyRows(page: Page, t: Located)
    requires forall k :: 0 <= k < |Flatten(page)| ==> !HasResultClass(Flatten(page)[k])
    requires FirstResultTable(page) == Some(t)
    requires |Filter(Descendants(t.elem), IsRow)| >= 2
    ensures exists k :: FirstAt(Flatten(page), k, IsResultTable) && Flatten(page)[k] == t.elem
    ensures Elems(Candidates(page)) == Filter(Descendants(t.elem), IsRow)[1..]
  {
    ClassStrategyWins(page);
    ElemsDrop1(TableRows(t));
    assert Elems(TableRows(t)) == Filter(Descendants(t.elem), IsRow);
  }

  /** When neither strategy one nor strategy two finds anything, the
      candidates are exactly the result-class divs in document order. */
  lemma DivStrategyFallback(page: Page)
    requires ClassStrategy(page) == [] && TableStrategy(page) == []
    ensures Elems(Candidates(page)) == Filter(Flatten(page), IsResultDiv)
  {
  }

  // ---------------------------------------------------------------------
  // Table rows

  /** `row.find_all('td')`. */
  function Cells(row: Element): seq<Element> {
    Filter(Descendants(row), IsCell)
  }

  /** `cell.find('a')`. */
  function CellLink(cell: Element): Option<Element> {
    Find(Descendants(cell), IsLink)
  }

  /** `link.get('href', '')`. */
  function HrefOf(link: Element): string {
    match Attr(link, "href")
    case Some(v) => v
    case None => ""
  }

  /** The locals `name`, `bar_number` and `city` of the cell loop. */
  datatype RowState = RowState(name: Option<string>, bar: Option<string>, city: Option<string>)

  /** One pass of the cell loop.  The cell text is cleaned first; a link
      names the row while no name is known; otherwise an eight-digit text is
      the bar number and a longer text may be one of the five cities. */
  function CellStep(h: Helpers, st: RowState, cell: Element): Try<RowState> {
    var text :- h.clean(Some(TextOf(cell)));
    var link := CellLink(cell);
    if link.Some? && !Truthy(st.name) then
      var name :- h.clean(Some(TextOf(link.value)));
      var query := BarNumberQuery(HrefOf(link.value));
      Returned(RowState(name, if query.Some? then query else st.bar, st.city))
    else if Truthy(text) && WholeEightDigits(text.value) then
      Returned(st.(bar := text))
    else if Truthy(text) && |text.value| > 2 && Title(text.value) in TableCities then
      Returned(st.(city := Some(Title(text.value))))
    else
      Returned(st)
  }

  /** The cell loop over a prefix of the cells. */
  function RowScan(h: Helpers, cells: seq<Element>): Try<RowState> {
    if cells == [] then Returned(RowState(None, None, None))
    else
      var st :- RowScan(h, cells[..|cells| - 1]);
      CellStep(h, st, cells[|cells| - 1])
  }

  /** `parse_table_row`. */
  function TableRow(h: Helpers, row: Element): Try<Option<Attorney>> {
    var cells := Cells(row);
    if |cells| < 2 then Returned(None)
    else
      var st :- RowScan(h, cells);
      if !Truthy(st.name) then Returned(None)
      else
        var names :- h.parseName(st.name.value);
        Returned(Some(Attorney(st.bar, st.name.value, names.0, names.1, "Active", st.city, None, [])))
  }

  /** The link of `cell` cleans to a non-empty name. */
  predicate LinkNames(h: Helpers, cell: Element) {
    CellLink(cell).Some? && h.clean(Some(TextOf(CellLink(cell).value))).Returned?
    && Truthy(h.clean(Some(TextOf(CellLink(cell).value))).value)
  }

  /** Cell `k` is the first cell whose link cleans to a non-empty name, `name`. */
  ghost predicate NamedBy(h: Helpers, cells: seq<Element>, k: int, name: string) {
    0 <= k < |cells| && CellLink(cells[k]).Some?
    && h.clean(Some(TextOf(CellLink(cells[k]).value))) == Returned(Some(name)) && name != ""
    && forall k' :: 0 <= k' < k ==> !LinkNames(h, cells[k'])
  }

  /** A bar number from a cell: a digit run from a `BarNumber=` query, or an
      eight-digit cell text. */
  predicate BarLike(b: string) {
    (|b| >= 1 && AllDigits(b)) || WholeEightDigits(b)
  }

  /** Cell `cell` can give the bar number `b`: it is the `BarNumber=` value
      of the cell's link, or the cell's cleaned text when that is eight
      digits. */
  predicate BarFromCell(h: Helpers, cell: Element, b: string) {
    (CellLink(cell).Some? && BarNumberQuery(HrefOf(CellLink(cell).value)) == Some(b))
    || (h.clean(Some(TextOf(cell))) == Returned(Some(b)) && WholeEightDigits(b))
  }

  /** Cell `cell` can give the city `c`: the cell's cleaned text is longer
      than two characters and title-cases to `c`. */
  predicate CityFromCell(h: Helpers, cell: Element, c: string) {
    var t := h.clean(Some(TextOf(cell)));
    t.Returned? && t.value.Some? && |t.value.value| > 2 && Title(t.value.value) == c
  }

  /** A cell without a link whose cleaned text is eight digits. */
  predicate EightDigitCell(h: Helpers, cell: Element) {
    var t := h.clean(Some(TextOf(cell)));
    CellLink(cell).None? && t.Returned? && t.value.Some? && WholeEightDigits(t.value.value)
  }

  /** A cell without a link whose cleaned text is longer than two characters
      and title-cases to one of the five cities. */
  predicate CityCell(h: Helpers, cell: Element) {
    var t := h.clean(Some(TextOf(cell)));
    CellLink(cell).None? && t.Returned? && t.value.Some? && |t.value.value| > 2
    && Title(t.value.value) in TableCities
  }

  /** An eight-digit text never title-cases to a city, so the city test
      cannot be shadowed by the bar number test. */
  lemma EightDigitsNoCity(t: string)
    requires WholeEightDigits(t)
    ensures Title(t) !in TableCities
  {
    assert IsDigit(t[0]) by {
      if |t| == 9 {
        assert t[..8][0] == t[0];
      }
    }
    assert Title(t)[0] == t[0];
  }

  /** One pass of the cell loop: a known name is kept, a missing one is
      taken from the cell's link, and a changed bar number or city has the
      shape the cell tests demand. */
  lemma CellStepFacts(h: Helpers, st0: RowState, cell: Element, st: RowState)
    requires CellStep(h, st0, cell) == Returned(st)
    ensures Truthy(st0.name) ==> st.name == st0.name
    ensures !Truthy(st0.name) && Truthy(st.name) ==>
              CellLink(cell).Some? && h.clean(Some(TextOf(CellLink(cell).value))) == Returned(st.name)
    ensures !Truthy(st0.name) && !Truthy(st.name) ==> !LinkNames(h, cell)
    ensures st.bar == st0.bar || (st.bar.Some? && BarLike(st.bar.value))
    ensures st.city == st0.city || (st.city.Some? && st.city.value in TableCities)
  {
    var link := CellLink(cell);
    if link.Some? && !Truthy(st0.name) {
      var query := BarNumberQuery(HrefOf(link.value));
      assert st.bar == (if query.Some? then query else st0.bar);
    }
  }

  /** One pass of the cell loop, for the bar number and the city: one once
      found is never lost, a changed one comes from this cell, and a cell
      without a link whose text is eight digits (or one of the five cities)
      sets the bar number (or the city). */
  lemma CellStepSources(h: Helpers, st0: RowState, cell: Element, st: RowState)
    requires CellStep(h, st0, cell) == Returned(st)
    ensures st0.bar.Some? ==> st.bar.Some?
    ensures st0.city.Some? ==> st.city.Some?
    ensures st.bar != st0.bar ==> st.bar.Some? && BarFromCell(h, cell, st.bar.value)
    ensures st.city != st0.city ==> st.city.Some? && CityFromCell(h, cell, st.city.value)
    ensures EightDigitCell(h, cell) ==> st.bar.Some?
    ensures CityCell(h, cell) ==> st.city.Some?
  {
    var link := CellLink(cell);
    if link.Some? && !Truthy(st0.name) {
      var query := BarNumberQuery(HrefOf(link.value));
      assert st.bar == (if query.Some? then query else st0.bar);
    }
    var t := h.clean(Some(TextOf(cell)));
    if CityCell(h, cell) && WholeEightDigits(t.value.value) {
      EightDigitsNoCity(t.value.value);
    }
  }

  /** A loop that finished went through every cell. */
  lemma RowScanLast(h: Helpers, cells: seq<Element>, st: RowState)
    requires cells != [] && RowScan(h, cells) == Returned(st)
    ensures RowScan(h, cells[..|cells| - 1]).Returned?
    ensures CellStep(h, RowScan(h, cells[..|cells| - 1]).value, cells[|cells| - 1]) == Returned(st)
  {
  }

  lemma NamedByKept(h: Helpers, cells: seq<Element>, k: int, name: string)
    requires cells != [] && NamedBy(h, cells[..|cells| - 1], k, name)
    ensures NamedBy(h, cells, k, name)
  {
    var init := cells[..|cells| - 1];
    assert forall k' :: 0 <= k' <= k ==> cells[k'] == init[k'];
  }

  lemma NamedByLast(h: Helpers, cells: seq<Element>, init: seq<Element>, name: string)
    requires cells != [] && init == cells[..|cells| - 1]
    requires forall k :: 0 <= k < |init| ==> !LinkNames(h, init[k])
    requires CellLink(cells[|cells| - 1]).Some? && name != ""
    requires h.clean(Some(TextOf(CellLink(cells[|cells| - 1]).value))) == Returned(Some(name))
    ensures NamedBy(h, cells, |cells| - 1, name)
  {
    assert forall k :: 0 <= k < |init| ==> cells[k] == init[k];
  }

  lemma UnnamedKept(h: Helpers, cells: seq<Element>, init: seq<Element>)
    requires cells != [] && init == cells[..|cells| - 1]
    requires forall k :: 0 <= k < |init| ==> !LinkNames(h, init[k])
    requires !LinkNames(h, cells[|cells| - 1])
    ensures forall k :: 0 <= k < |cells| ==> !LinkNames(h, cells[k])
  {
    NoneExtends(cells, init, c => LinkNames(h, c));
  }

  lemma NoneExtends<T>(xs: seq<T>, init: seq<T>, p: T -> bool)
    requires xs != [] && init == xs[..|xs| - 1]
    requires forall k :: 0 <= k < |init| ==> !p(init[k])
    requires !p(xs[|xs| - 1])
    ensures forall k :: 0 <= k < |xs| ==> !p(xs[k])
  {
    forall k | 0 <= k < |xs| ensures !p(xs[k]) {
      if k < |init| {
        assert xs[k] == init[k];
      }
    }
  }

  /** What the cell loop keeps as it goes: the name is that of the first
      link that cleans to a non-empty text (and stays falsy only if no link
      does), the bar number has the shape of a query value or an eight-digit
      cell, and the city is one of the five. */
  lemma {:induction false} RowScanFacts(h: Helpers, cells: seq<Element>, st: RowState)
    requires RowScan(h, cells) == Returned(st)
    ensures Truthy(st.name) ==> exists k :: NamedBy(h, cells, k, st.name.value)
    ensures !Truthy(st.name) ==> forall k :: 0 <= k < |cells| ==> !LinkNames(h, cells[k])
    ensures st.bar.Some? ==> BarLike(st.bar.value)
    ensures st.city.Some? ==> st.city.value in TableCities
    decreases |cells|
  {
    if cells != [] {
      var n := |cells| - 1;
      RowScanLast(h, cells, st);
      var st0 := RowScan(h, cells[..n]).value;
      RowScanFacts(h, cells[..n], st0);
      CellStepFacts(h, st0, cells[n], st);
      if Truthy(st.name) {
        if Truthy(st0.name) {
          var k :| NamedBy(h, cells[..n], k, st0.name.value);
          NamedByKept(h, cells, k, st.name.value);
        } else {
          NamedByLast(h, cells, cells[..n], st.name.value);
        }
      } else {
        UnnamedKept(h, cells, cells[..n]);
      }
    }
  }

  /** Where the cell loop's bar number and city come from: a bar number is
      the query value of some cell's link or some cell's eight-digit text,
      a city is the title-cased text of some cell, and a cell without a link
      whose text is eight digits (or one of the five cities) makes the bar
      number (or the city) present. */
  lemma {:induction false} RowScanSources(h: Helpers, cells: seq<Element>, st: RowState)
    requires RowScan(h, cells) == Returned(st)
    ensures st.bar.Some? ==> exists k :: 0 <= k < |cells| && BarFromCell(h, cells[k], st.bar.value)
    ensures st.city.Some? ==> exists k :: 0 <= k < |cells| && CityFromCell(h, cells[k], st.city.value)
    ensures (exists k :: 0 <= k < |cells| && EightDigitCell(h, cells[k])) ==> st.bar.Some?
    ensures (exists k :: 0 <= k < |cells| && CityCell(h, cells[k])) ==> st.city.Some?
    decreases |cells|
  {
    if cells != [] {
      var n := |cells| - 1;
      RowScanLast(h, cells, st);
      var st0 := RowScan(h, cells[..n]).value;
      RowScanSources(h, cells[..n], st0);
      CellStepSources(h, st0, cells[n], st);
      SourcesExtend(h, cells, st0, st);
    }
  }

  /** The induction step of `RowScanSources`, apart from the cell loop. */
  lemma SourcesExtend(h: Helpers, cells: seq<Element>, st0: RowState, st: RowState)
    requires cells != []
    requires var init := cells[..|cells| - 1];
             && (st0.bar.Some? ==> exists k :: 0 <= k < |init| && BarFromCell(h, init[k], st0.bar.value))
             && (st0.city.Some? ==> exists k :: 0 <= k < |init| && CityFromCell(h, init[k], st0.city.value))
             && ((exists k :: 0 <= k < |init| && EightDigitCell(h, init[k])) ==> st0.bar.Some?)
             && ((exists k :: 0 <= k < |init| && CityCell(h, init[k])) ==> st0.city.Some?)
    requires var cell := cells[|cells| - 1];
             && (st0.bar.Some? ==> st.bar.Some?)
             && (st0.city.Some? ==> st.city.Some?)
             && (st.bar != st0.bar ==> st.bar.Some? && BarFromCell(h, cell, st.bar.value))
             && (st.city != st0.city ==> st.city.Some? && CityFromCell(h, cell, st.city.value))
             && (EightDigitCell(h, cell) ==> st.bar.Some?)
             && (CityCell(h, cell) ==> st.city.Some?)
    ensures st.bar.Some? ==> exists k :: 0 <= k < |cells| && BarFromCell(h, cells[k], st.bar.value)
    ensures st.city.Some? ==> exists k :: 0 <= k < |cells| && CityFromCell(h, cells[k], st.city.value)
    ensures (exists k :: 0 <= k < |cells| && EightDigitCell(h, cells[k])) ==> st.bar.Some?
    ensures (exists k :: 0 <= k < |cells| && CityCell(h, cells[k])) ==> st.city.Some?
  {
    var n := |cells| - 1;
    if st.bar.Some? {
      var b := st.bar.value;
      if st.bar == st0.bar {
        SomeKept(cells, cells[..n], c => BarFromCell(h, c, b));
      } else {
        assert BarFromCell(h, cells[n], b);
      }
    }
    if st.city.Some? {
      var c := st.city.value;
      if st.city == st0.city {
        SomeKept(cells, cells[..n], e => CityFromCell(h, e, c));
      } else {
        assert CityFromCell(h, cells[n], c);
      }
    }
    if exists k :: 0 <= k < |cells| && EightDigitCell(h, cells[k]) {
      SomeSplit(cells, cells[..n], e => EightDigitCell(h, e));
    }
    if exists k :: 0 <= k < |cells| && CityCell(h, cells[k]) {
      SomeSplit(cells, cells[..n], e => CityCell(h, e));
    }
  }

  lemma SomeKept<T>(xs: seq<T>, init: seq<T>, p: T -> bool)
    requires xs != [] && init == xs[..|xs| - 1]
    requires exists k :: 0 <= k < |init| && p(init[k])
    ensures exists k :: 0 <= k < |xs| && p(xs[k])
  {
    var k :| 0 <= k < |init| && p(init[k]);
    assert init[k] == xs[k];
  }

  lemma SomeSplit<T>(xs: seq<T>, init: seq<T>, p: T -> bool)
    requires xs != [] && init == xs[..|xs| - 1]
    requires exists k :: 0 <= k < |xs| && p(xs[k])
    ensures p(xs[|xs| - 1]) || exists k :: 0 <= k < |init| && p(init[k])
  {
    var k :| 0 <= k < |xs| && p(xs[k]);
    if k < |init| {
      assert init[k] == xs[k];
    }
  }

  /** A prefix whose loop raised makes the whole loop raise. */
  lemma {:induction false} RowScanRaised(h: Helpers, cells: seq<Element>, j: nat)
    requires j <= |cells| && RowScan(h, cells[..j]).Raised?
    ensures RowScan(h, cells).Raised?
    decreases |cells| - j
  {
    if j == |cells| {
      assert cells[..j] == cells;
    } else {
      assert cells[..j + 1][..j] == cells[..j];
      RowScanRaised(h, cells, j + 1);
    }
  }

  /** One more pass of the cell loop. */
  lemma RowScanNext(h: Helpers, cells: seq<Element>, i: nat, st: RowState)
    requires i < |cells| && RowScan(h, cells[..i]) == Returned(st)
    ensures RowScan(h, cells[..i + 1]) == CellStep(h, st, cells[i])
  {
    assert cells[..i + 1][..i] == cells[..i];
  }

  /** A row with fewer than two cells, or one whose loop finishes with no
      link that cleans to a non-empty text, yields no record. */
  lemma TableRowNoRecord(h: Helpers, row: Element)
    ensures |Cells(row)| < 2 ==> TableRow(h, row) == Returned(None)
    ensures RowScan(h, Cells(row)).Returned? && (forall k :: 0 <= k < |Cells(row)| ==> !LinkNames(h, Cells(row)[k]))
            ==> TableRow(h, row) == Returned(None)
  {
    var cells := Cells(row);
    if |cells| >= 2 && RowScan(h, cells).Returned? && (forall k :: 0 <= k < |cells| ==> !LinkNames(h, cells[k])) {
      var st := RowScan(h, cells).value;
      if Truthy(st.name) {
        RowScanFacts(h, cells, st);
        var k :| NamedBy(h, cells, k, st.name.value);
        assert LinkNames(h, cells[k]);
      }
    }
  }

  /** A record from a table row: the row has at least two cells, the name is
      the text of the first link that cleans to a non-empty text, the names
      come from `parse_name`, the bar number comes from a cell's query or
      eight-digit text and is present whenever a cell without a link holds
      eight digits, the city is the title-cased text of a cell, is one of the
      five and is present whenever a cell without a link names one, and the
      status is `Active`. */
  lemma TableRowRecord(h: Helpers, row: Element, a: Attorney)
    requires TableRow(h, row) == Returned(Some(a))
    ensures |Cells(row)| >= 2 && a.fullName != "" && a.status == "Active"
    ensures exists k :: NamedBy(h, Cells(row), k, a.fullName)
    ensures h.parseName(a.fullName) == Returned((a.firstName, a.lastName))
    ensures a.barNumber.Some? ==> BarLike(a.barNumber.value)
    ensures a.city.Some? ==> a.city.value in TableCities
    ensures a.barNumber.Some? ==> exists k :: 0 <= k < |Cells(row)| && BarFromCell(h, Cells(row)[k], a.barNumber.value)
    ensures a.city.Some? ==> exists k :: 0 <= k < |Cells(row)| && CityFromCell(h, Cells(row)[k], a.city.value)
    ensures (exists k :: 0 <= k < |Cells(row)| && EightDigitCell(h, Cells(row)[k])) ==> a.barNumber.Some?
    ensures (exists k :: 0 <= k < |Cells(row)| && CityCell(h, Cells(row)[k])) ==> a.city.Some?
    ensures a.firmName.None? && a.practiceAreas == []
  {
    var cells := Cells(row);
    var st := RowScan(h, cells).value;
    RowScanFacts(h, cells, st);
    RowScanSources(h, cells, st);
  }

  // ---------------------------------------------------------------------
  // Div results

  /** The text of the first tag of `es`, or `None` when there is none (the
      next element after the firm label). */
  function NextTagText(es: seq<Element>): Option<string> {
    match Find(es, IsAnyTag)
    case None => None
    case Some(t) => Some(TextOf(t))
  }

  /** The firm of a div: the first text node below the div that names a
      firm label, then the cleaned text of the next tag in the document. */
  function FirmOf(h: Helpers, loc: Located): Try<Option<string>> {
    match FirstWhere(Walk(ChildrenOf(loc.elem), loc.following), IsFirmLabel)
    case None => Returned(None)
    case Some(marker) => h.clean(NextTagText(marker.following))
  }

  /** The city of a div: the leftmost city the pattern finds, title-cased. */
  function DivCity(text: string): Option<string> {
    match CityMention(text)
    case None => None
    case Some(m) => Some(Title(m))
  }

  /** The cleaned text of the first heading, link or strong tag below the div. */
  function DivName(h: Helpers, loc: Located): Try<Option<string>> {
    match Find(Descendants(loc.elem), IsNameTag)
    case None => Returned(None)
    case Some(e) => h.clean(Some(TextOf(e)))
  }

  /** A div's record out of its parts: the name cleaning and the firm
      cleaning happen before the name check, which happens before
      `parse_name`. */
  function DivRecordOf(h: Helpers, name: Try<Option<string>>, firm: Try<Option<string>>,
                       bar: Option<string>, city: Option<string>): Try<Option<Attorney>> {
    var n :- name;
    var f :- firm;
    if !Truthy(n) then Returned(None)
    else
      var names :- h.parseName(n.value);
      Returned(Some(Attorney(bar, n.value, names.0, names.1, "Active", city, f, [])))
  }

  /** `parse_div_result`. */
  function DivResult(h: Helpers, loc: Located): Try<Option<Attorney>> {
    var text := TextOf(loc.elem);
    DivRecordOf(h, DivName(h, loc), FirmOf(h, loc), BarLabelNumber(text), DivCity(text))
  }

  /** A div's record holds the parts it was made of. */
  lemma DivRecordParts(h: Helpers, name: Try<Option<string>>, firm: Try<Option<string>>,
                       bar: Option<string>, city: Option<string>, a: Attorney)
    requires DivRecordOf(h, name, firm, bar, city) == Returned(Some(a))
    ensures name == Returned(Some(a.fullName)) && a.fullName != ""
    ensures firm == Returned(a.firmName) && bar == a.barNumber && city == a.city
    ensures h.parseName(a.fullName) == Returned((a.firstName, a.lastName))
    ensures a.status == "Active" && a.practiceAreas == []
  {
  }

  /** The firm text is read from the tag that follows the first firm label
      below the div in document order, which may lie after the div itself. */
  lemma FirmSource(h: Helpers, loc: Located)
    ensures (forall k :: 0 <= k < |Descendants(loc.elem)| ==> !IsFirmLabel(Descendants(loc.elem)[k]))
            ==> FirmOf(h, loc) == Returned(None)
    ensures forall k :: FirstAt(Descendants(loc.elem), k, IsFirmLabel) ==>
              FirmOf(h, loc) == h.clean(NextTagText(Descendants(loc.elem)[k + 1..] + loc.following))
  {
    var cs := ChildrenOf(loc.elem);
    var d := Descendants(loc.elem);
    var w := Walk(cs, loc.following);
    assert Elems(w) == d;
    forall k | FirstAt(d, k, IsFirmLabel)
      ensures FirmOf(h, loc) == h.clean(NextTagText(d[k + 1..] + loc.following))
    {
      FirstTextFollowing(cs, loc.following, IsFirmLabel, k);
    }
  }

  /** In an ASCII text the city the div extractor reports is one of the six
      names of the pattern. */
  lemma DivCityKnown(text: string)
    requires IsAscii(text)
    ensures DivCity(text).Some? ==> DivCity(text).value in DivCities
    ensures DivCity(text).None? <==> forall i, n :: !CityAt(text, i, n)
  {
    match CityMention(text)
    case None =>
    case Some(m) =>
      var i, n :| NoCityBetween(text, 0, i) && CityReportedAt(text, i, n)
                  && m == text[i..i + |DivCities[n]|];
      CityAtSlice(text, i, n);
      CityMatchTitle(m, n);
  }

  /** A div without a heading, link or strong tag yields no record. */
  lemma DivNoName(h: Helpers, loc: Located)
    requires Find(Descendants(loc.elem), IsNameTag).None? && FirmOf(h, loc).Returned?
    ensures DivResult(h, loc) == Returned(None)
  {
  }

  /** A record from a div: the name is the cleaned text of the first
      heading, link or strong tag below it and is non-empty, the names come
      from `parse_name`, the status is `Active`, a bar number is exactly
      eight digits after a `Bar` label in the div's text (the leftmost
      capture of the pattern), the city is the title-cased leftmost city
      mention, and the firm is what `FirmOf` reads. */
  lemma DivRecord(h: Helpers, loc: Located, a: Attorney)
    requires DivResult(h, loc) == Returned(Some(a))
    ensures a.fullName != "" && a.status == "Active" && a.practiceAreas == []
    ensures Find(Descendants(loc.elem), IsNameTag).Some?
    ensures h.clean(Some(TextOf(Find(Descendants(loc.elem), IsNameTag).value))) == Returned(Some(a.fullName))
    ensures h.parseName(a.fullName) == Returned((a.firstName, a.lastName))
    ensures a.barNumber.Some? ==>
              |a.barNumber.value| == 8 && AllDigits(a.barNumber.value)
              && exists i, j :: BarLabelledAt(TextOf(loc.elem), i, j) && a.barNumber.value == TextOf(loc.elem)[j..j + 8]
    ensures a.barNumber.None? <==> forall i, j :: !BarLabelledAt(TextOf(loc.elem), i, j)
    ensures IsAscii(TextOf(loc.elem)) && a.city.Some? ==> a.city.value in DivCities
    ensures a.barNumber == BarLabelNumber(TextOf(loc.elem)) && a.city == DivCity(TextOf(loc.elem))
    ensures FirmOf(h, loc) == Returned(a.firmName)
  {
    var text := TextOf(loc.elem);
    DivRecordParts(h, DivName(h, loc), FirmOf(h, loc), BarLabelNumber(text), DivCity(text), a);
    if IsAscii(text) {
      DivCityKnown(text);
    }
  }

  /** `parse_result`: rows go to the table extractor, all else to the div one. */
  function ResultOf(h: Helpers, loc: Located): Try<Option<Attorney>> {
    if IsRow(loc.elem) then TableRow(h, loc.elem) else DivResult(h, loc)
  }

  /** Neither extractor returns a record without a non-empty name, and every
      record has status `Active` and no practice areas. */
  lemma RecordShape(h: Helpers, loc: Located, a: Attorney)
    requires ResultOf(h, loc) == Returned(Some(a))
    ensures a.fullName != "" && a.status == "Active" && a.practiceAreas == []
    ensures h.parseName(a.fullName) == Returned((a.firstName, a.lastName))
  {
    if IsRow(loc.elem) {
      TableRowRecord(h, loc.elem, a);
    } else {
      DivRecord(h, loc, a);
    }
  }

  // ---------------------------------------------------------------------
  // Counting

  /** The counters of `self.stats` that the result loop updates. */
  datatype Stats = Stats(found: int, errors: int)

  /** What happens to one result block in the loop. */
  datatype Outcome = Recorded | Skipped | Failed

  /** A record that was saved is counted as found; a block whose parse or
      save raised is counted as an error; a block without a record is
      skipped. */
  function OutcomeOf(h: Helpers, loc: Located): Outcome {
    OutcomeFrom(h, ResultOf(h, loc))
  }

  function OutcomeFrom(h: Helpers, parsed: Try<Option<Attorney>>): Outcome {
    match parsed
    case Raised => Failed
    case Returned(None) => Skipped
    case Returned(Some(a)) => if h.save(a).Raised? then Failed else Recorded
  }

  /** `OutcomeOf` as a function value, so that counting can be reasoned
      about without looking into the extractors. */
  function Outcomes(h: Helpers): Located -> Outcome {
    loc => OutcomeOf(h, loc)
  }

  function Bump(st: Stats, o: Outcome): Stats {
    match o
    case Recorded => st.(found := st.found + 1)
    case Failed => st.(errors := st.errors + 1)
    case Skipped => st
  }

  /** The counters after the loop has handled the blocks `ls`, in order. */
  function Tally(outcome: Located -> Outcome, st: Stats, ls: seq<Located>): Stats {
    if ls == [] then st
    else Bump(Tally(outcome, st, ls[..|ls| - 1]), outcome(ls[|ls| - 1]))
  }

  /** The number of blocks of `ls` with outcome `o`. */
  function Count(outcome: Located -> Outcome, ls: seq<Located>, o: Outcome): nat {
    if ls == [] then 0
    else (if outcome(ls[0]) == o then 1 else 0) + Count(outcome, ls[1..], o)
  }

  lemma {:induction false} CountSnoc(outcome: Located -> Outcome, ls: seq<Located>, x: Located, o: Outcome)
    ensures Count(outcome, ls + [x], o) == Count(outcome, ls, o) + (if outcome(x) == o then 1 else 0)
  {
    if ls != [] {
      assert (ls + [x])[1..] == ls[1..] + [x];
      CountSnoc(outcome, ls[1..], x, o);
    }
  }

  /** Every block is recorded, skipped or failed, exactly once. */
  lemma {:induction false} CountPartition(outcome: Located -> Outcome, ls: seq<Located>)
    ensures Count(outcome, ls, Recorded) + Count(outcome, ls, Skipped) + Count(outcome, ls, Failed) == |ls|
  {
    if ls != [] {
      CountPartition(outcome, ls[1..]);
    }
  }

  /** The loop raises `found` by exactly the number of blocks whose record
      was returned and saved, and `errors` by exactly the number of blocks
      whose parse or save raised. */
  lemma {:induction false} TallyCounts(outcome: Located -> Outcome, st: Stats, ls: seq<Located>)
    ensures Tally(outcome, st, ls) == Stats(st.found + Count(outcome, ls, Recorded), st.errors + Count(outcome, ls, Failed))
    decreases |ls|
  {
    if ls != [] {
      var n := |ls| - 1;
      TallyCounts(outcome, st, ls[..n]);
      assert ls == ls[..n] + [ls[n]];
      CountSnoc(outcome, ls[..n], ls[n], Recorded);
      CountSnoc(outcome, ls[..n], ls[n], Failed);
    }
  }

  // ---------------------------------------------------------------------
  // Pagination

  /** The `href` of the first "Next" link of the page, when it is truthy. */
  function NextHref(page: Page): (r: Option<string>)
    ensures r.Some? ==> r.value != ""
  {
    match Find(Flatten(page), IsPager)
    case None => None
    case Some(pager) => if Truthy(Attr(pager, "href")) then Attr(pager, "href") else None
  }
  /** The next-page link is read from the first `next` link of the page and
      from no other: without one there is none, its non-empty `href` is
      returned, and when it has none no later link is consulted. */
  lemma NextHrefFirstPager(page: Page)
    ensures (forall k :: 0 <= k < |Flatten(page)| ==> !IsPager(Flatten(page)[k])) ==> NextHref(page).None?
    ensures forall k :: FirstAt(Flatten(page), k, IsPager) ==>
              NextHref(page) == (if Truthy(Attr(Flatten(page)[k], "href")) then Attr(Flatten(page)[k], "href") else None)
    ensures NextHref(page).Some? ==>
              exists k :: FirstAt(Flatten(page), k, IsPager) && Attr(Flatten(page)[k], "href") == NextHref(page)
  {
    var es := Flatten(page);
    match Find(es, IsPager)
    case None =>
    case Some(pager) =>
      var k0 :| FirstAt(es, k0, IsPager) && es[k0] == pager;
      forall k | FirstAt(es, k, IsPager)
        ensures NextHref(page) == (if Truthy(Attr(es[k], "href")) then Attr(es[k], "href") else None)
      {
        FirstAtUnique(es, k, k0, IsPager);
      }
  }


  /** A link that does not start with `http` is taken relative to the site. */
  function AbsoluteUrl(href: string): (r: string)
    ensures StartsWith(href, "http") ==> r == href
    ensures !StartsWith(href, "http") ==> r == BaseUrl + href
    ensures StartsWith(r, "http")
  {
    if StartsWith(href, "http") then href
    else
      assert (BaseUrl + href)[..4] == BaseUrl[..4];
      BaseUrl + href
  }

  /** What a traversal reads from a page: its result blocks, the outcome
      of handling one block, and its next link. */
  datatype Reader = Reader(
    blocks: Page -> seq<Located>,
    outcome: Located -> Outcome,
    next: Page -> Option<string>)

  /** The Texas scraper's reading of a page. */
  function TexasReader(h: Helpers): Reader {
    Reader(page => Candidates(page), Outcomes(h), page => NextHref(page))
  }

  /** `parse_results` on a page with at most `fuel` next links still to
      follow: the counters afterwards, and whether a fetch raised (the
      exception leaves `parse_results` with the counts made so far). */
  function Traverse(rd: Reader, web: Web, page: Page, fuel: nat, st: Stats): (Stats, bool)
    decreases fuel, 1, 0
  {
    FollowNext(rd, web, page, fuel, Tally(rd.outcome, st, rd.blocks(page)))
  }

  /** The pagination at the end of `parse_results`, once the page's blocks
      are counted. */
  function FollowNext(rd: Reader, web: Web, page: Page, fuel: nat, counted: Stats): (Stats, bool)
    decreases fuel, 0, 1
  {
    FollowHref(rd, web, rd.next(page), fuel, counted)
  }

  /** Following the "Next" link `next`, if any.  `fuel` is the recursion
      depth left: a next link met with none left raises, as Python's
      `RecursionError` does once the chain of nested calls is too deep. */
  function FollowHref(rd: Reader, web: Web, next: Option<string>, fuel: nat, counted: Stats): (Stats, bool)
    decreases fuel, 0, 0
  {
    match next
    case None => (counted, false)
    case Some(href) =>
      if fuel == 0 then (counted, true)
      else
        match web.get(AbsoluteUrl(href))
        case Raised => (counted, true)
        case Returned(None) => (counted, false)
        case Returned(Some(page)) => Traverse(rd, web, page, fuel - 1, counted)
  }

  /** The pages a traversal parses, in order, and whether it ended in a
      raise: its last fetch raised, or its last page links on past the
      recursion limit. */
  function Visits(rd: Reader, web: Web, page: Page, fuel: nat): (r: (seq<Page>, bool))
    ensures 1 <= |r.0| <= fuel + 1 && r.0[0] == page
    decreases fuel
  {
    match rd.next(page)
    case None => ([page], false)
    case Some(href) =>
      if fuel == 0 then ([page], true)
      else
        match web.get(AbsoluteUrl(href))
        case Raised => ([page], true)
        case Returned(None) => ([page], false)
        case Returned(Some(next)) =>
          var v := Visits(rd, web, next, fuel - 1);
          ([page] + v.0, v.1)
  }

  /** The blocks with outcome `o` over every page of `pages`. */
  function CountPages(rd: Reader, pages: seq<Page>, o: Outcome): nat {
    if pages == [] then 0 else Count(rd.outcome, rd.blocks(pages[0]), o) + CountPages(rd, pages[1..], o)
  }

  /** A traversal that stops on `page`. */
  lemma TraverseStops(rd: Reader, web: Web, page: Page, fuel: nat, st: Stats)
    requires Visits(rd, web, page, fuel).0 == [page]
    ensures Traverse(rd, web, page, fuel, st) == (Tally(rd.outcome, st, rd.blocks(page)), Visits(rd, web, page, fuel).1)
  {
    assert Traverse(rd, web, page, fuel, st) == FollowHref(rd, web, rd.next(page), fuel, Tally(rd.outcome, st, rd.blocks(page)));
    match rd.next(page)
    case None =>
    case Some(href) =>
      if fuel > 0 {
        match web.get(AbsoluteUrl(href))
        case Raised =>
        case Returned(None) =>
        case Returned(Some(next)) =>
      }
  }

  /** A traversal that goes on from `page` to `next`. */
  lemma TraverseGoesOn(rd: Reader, web: Web, page: Page, fuel: nat, st: Stats) returns (next: Page)
    requires |Visits(rd, web, page, fuel).0| > 1
    ensures fuel > 0
    ensures Traverse(rd, web, page, fuel, st) == Traverse(rd, web, next, fuel - 1, Tally(rd.outcome, st, rd.blocks(page)))
    ensures Visits(rd, web, page, fuel) == ([page] + Visits(rd, web, next, fuel - 1).0, Visits(rd, web, next, fuel - 1).1)
  {
    assert Traverse(rd, web, page, fuel, st) == FollowHref(rd, web, rd.next(page), fuel, Tally(rd.outcome, st, rd.blocks(page)));
    var href := rd.next(page).value;
    next := web.get(AbsoluteUrl(href)).value.value;
  }

  lemma CountPagesCons(rd: Reader, page: Page, pages: seq<Page>, o: Outcome)
    ensures CountPages(rd, [page] + pages, o) == Count(rd.outcome, rd.blocks(page), o) + CountPages(rd, pages, o)
  {
    assert ([page] + pages)[1..] == pages;
  }

  /** Over all the pages it visits, a traversal counts as found exactly the
      saved records and as errors exactly the failed blocks, and it ends with
      a raise exactly when the last fetch raised or the recursion limit was
      reached. */
  lemma {:induction false} TraverseCounts(rd: Reader, web: Web, page: Page, fuel: nat, st: Stats)
    ensures Traverse(rd, web, page, fuel, st)
            == (Stats(st.found + CountPages(rd, Visits(rd, web, page, fuel).0, Recorded),
                      st.errors + CountPages(rd, Visits(rd, web, page, fuel).0, Failed)),
                Visits(rd, web, page, fuel).1)
    decreases fuel
  {
    var counted := Tally(rd.outcome, st, rd.blocks(page));
    TallyCounts(rd.outcome, st, rd.blocks(page));
    var v := Visits(rd, web, page, fuel);
    if |v.0| == 1 {
      TraverseStops(rd, web, page, fuel, st);
      assert v.0 == [page] + [];
      CountPagesCons(rd, page, [], Recorded);
      CountPagesCons(rd, page, [], Failed);
    } else {
      var next := TraverseGoesOn(rd, web, page, fuel, st);
      var rest := Visits(rd, web, next, fuel - 1);
      TraverseCounts(rd, web, next, fuel - 1, counted);
      CountPagesCons(rd, page, rest.0, Recorded);
      CountPagesCons(rd, page, rest.0, Failed);
    }
  }

  /** Two pages: the first lists two saved attorneys and links to the
      second, which lists one and has no next link.  Three records are
      found and the traversal ends without a raise. */
  lemma TwoPageTraversal(rd: Reader, web: Web, first: Page, second: Page, href: string, fuel: nat, st: Stats)
    requires rd.next(first) == Some(href) && web.get(AbsoluteUrl(href)) == Returned(Some(second))
    requires rd.next(second).None? && fuel >= 1
    requires Count(rd.outcome, rd.blocks(first), Recorded) == 2 && Count(rd.outcome, rd.blocks(second), Recorded) == 1
    ensures Traverse(rd, web, first, fuel, st).0.found == st.found + 3
    ensures !Traverse(rd, web, first, fuel, st).1
  {
    TraverseCounts(rd, web, first, fuel, st);
    assert Visits(rd, web, first, fuel).0 == [first] + [second];
    CountPagesCons(rd, first, [second], Recorded);
    CountPagesCons(rd, second, [], Recorded);
  }

  /** A page whose next link leads back to itself is parsed once per level
      of recursion left, and the traversal then raises. */
  lemma {:induction false} SelfLinkRaises(rd: Reader, web: Web, page: Page, href: string, fuel: nat, st: Stats)
    requires rd.next(page) == Some(href) && web.get(AbsoluteUrl(href)) == Returned(Some(page))
    ensures Visits(rd, web, page, fuel) == (seq(fuel + 1, _ => page), true)
    ensures Traverse(rd, web, page, fuel, st).1
    decreases fuel
  {
    if fuel == 0 {
      assert seq(1, _ => page) == [page];
    } else {
      SelfLinkRaises(rd, web, page, href, fuel - 1, st);
      assert seq(fuel + 1, _ => page) == [page] + seq(fuel, _ => page);
    }
    TraverseCounts(rd, web, page, fuel, st);
  }

  // ---------------------------------------------------------------------
  // Searches

  function CityForm(city: string): FormData {
    [("City", city), ("State", "TX"), ("LastName", ""), ("FirstName", ""), ("BarNumber", ""), ("PracticeArea", "")]
  }

  function LetterForm(letter: string): FormData {
    [("LastName", letter), ("FirstName", ""), ("City", ""), ("BarNumber", "")]
  }

  /** A search: a raise anywhere, in the POST or in a later fetch, counts
      one error; a falsy response ends the search quietly. */
  function Search(rd: Reader, web: Web, form: FormData, fuel: nat, st: Stats): Stats {
    match web.post(ApiUrl, form)
    case Raised => st.(errors := st.errors + 1)
    case Returned(None) => st
    case Returned(Some(page)) =>
      var t := Traverse(rd, web, page, fuel, st);
      if t.1 then t.0.(errors := t.0.errors + 1) else t.0
  }

  /** The counters after a search: a failing POST is one error, a falsy
      response changes nothing, and otherwise the pages visited contribute
      their saved records to `found` and their failed blocks, plus one for a
      raised fetch or a next link past the recursion limit, to `errors`. */
  lemma SearchCounts(rd: Reader, web: Web, form: FormData, fuel: nat, st: Stats)
    ensures web.post(ApiUrl, form).Raised? ==> Search(rd, web, form, fuel, st) == Stats(st.found, st.errors + 1)
    ensures web.post(ApiUrl, form) == Returned(None) ==> Search(rd, web, form, fuel, st) == st
    ensures web.post(ApiUrl, form).Returned? && web.post(ApiUrl, form).value.Some? ==>
              var v := Visits(rd, web, web.post(ApiUrl, form).value.value, fuel);
              Search(rd, web, form, fuel, st)
              == Stats(st.found + CountPages(rd, v.0, Recorded),
                       st.errors + CountPages(rd, v.0, Failed) + (if v.1 then 1 else 0))
  {
    match web.post(ApiUrl, form)
    case Raised =>
    case Returned(None) =>
    case Returned(Some(page)) =>
      TraverseCounts(rd, web, page, fuel, st);
  }

  // ---------------------------------------------------------------------
  // The scraper

  class TexasBarScraper {
    const helpers: Helpers
    const web: Web
    var found: int
    var errors: int

    constructor (helpers: Helpers, web: Web)
      ensures this.helpers == helpers && this.web == web
      ensures found == 0 && errors == 0
    {
      this.helpers := helpers;
      this.web := web;
      found := 0;
      errors := 0;
    }

    /** One pass of the cell loop of `parse_table_row`. */
    method ScanCell(name: Option<string>, bar: Option<string>, city: Option<string>, cell: Element)
      returns (r: Try<RowState>)
      ensures r == CellStep(helpers, RowState(name, bar, city), cell)
    {
      var text := helpers.clean(Some(TextOf(cell)));
      if text.Raised? {
        return Raised;
      }
      var link := CellLink(cell);
      if link.Some? && !Truthy(name) {
        var cleaned := helpers.clean(Some(TextOf(link.value)));
        if cleaned.Raised? {
          return Raised;
        }
        var query := BarNumberQuery(HrefOf(link.value));
        if query.Some? {
          return Returned(RowState(cleaned.value, query, city));
        }
        return Returned(RowState(cleaned.value, bar, city));
      } else if Truthy(text.value) && WholeEightDigits(text.value.value) {
        return Returned(RowState(name, text.value, city));
      } else if Truthy(text.value) && |text.value.value| > 2 {
        if Title(text.value.value) in TableCities {
          return Returned(RowState(name, bar, Some(Title(text.value.value))));
        }
      }
      return Returned(RowState(name, bar, city));
    }

    /** `parse_table_row`, looping over the cells. */
    method ParseTableRow(row: Element) returns (r: Try<Option<Attorney>>)
      ensures r == TableRow(helpers, row)
    {
      var cells := Cells(row);
      if |cells| < 2 {
        return Returned(None);
      }
      var name: Option<string> := None;
      var bar: Option<string> := None;
      var city: Option<string> := None;
      var i := 0;
      while i < |cells|
        invariant 0 <= i <= |cells|
        invariant RowScan(helpers, cells[..i]) == Returned(RowState(name, bar, city))
      {
        RowScanNext(helpers, cells, i, RowState(name, bar, city));
        var step := ScanCell(name, bar, city, cells[i]);
        if step.Raised? {
          RowScanRaised(helpers, cells, i + 1);
          return Raised;
        }
        name, bar, city := step.value.name, step.value.bar, step.value.city;
        i := i + 1;
      }
      assert cells[..i] == cells;
      if !Truthy(name) {
        return Returned(None);
      }
      var names := helpers.parseName(name.value);
      if names.Raised? {
        return Raised;
      }
      return Returned(Some(Attorney(bar, name.value, names.value.0, names.value.1, "Active", city, None, [])));
    }

    /** `parse_result`. */
    method ParseResult(loc: Located) returns (r: Try<Option<Attorney>>)
      ensures r == ResultOf(helpers, loc)
    {
      if IsRow(loc.elem) {
        r := ParseTableRow(loc.elem);
      } else {
        r := DivResult(helpers, loc);
      }
    }

    /** The cascade of `parse_results`: the first strategy that finds any blocks. */
    method FindResults(page: Page) returns (results: seq<Located>)
      ensures results == Candidates(page)
    {
      results := ClassStrategy(page);
      if results == [] {
        var table := FirstResultTable(page);
        if table.Some? {
          results := Drop1(TableRows(table.value));
        }
      }
      if results == [] {
        results := DivStrategy(page);
      }
    }

    /** Saves a parsed record and counts it, or counts the raise. */
    method Record(parsed: Try<Option<Attorney>>)
      modifies this
      ensures Stats(found, errors) == Bump(old(Stats(found, errors)), OutcomeFrom(helpers, parsed))
    {
      match parsed {
        case Raised =>
          errors := errors + 1;
        case Returned(None) =>
        case Returned(Some(a)) =>
          var saved := helpers.save(a);
          if saved.Raised? {
            errors := errors + 1;
          } else {
            found := found + 1;
          }
      }
    }

    /** One pass of the result loop of `parse_results`: the body of its
        `try`, and its `except`. */
    method HandleBlock(loc: Located)
      modifies this
      ensures Stats(found, errors) == Bump(old(Stats(found, errors)), Outcomes(helpers)(loc))
    {
      var attorney := ParseResult(loc);
      Record(attorney);
    }

    /** The result loop of `parse_results`. */
    method HandleBlocks(results: seq<Located>)
      modifies this
      ensures Stats(found, errors) == Tally(Outcomes(helpers), old(Stats(found, errors)), results)
    {
      ghost var start := Stats(found, errors);
      var i := 0;
      while i < |results|
        invariant 0 <= i <= |results|
        invariant Stats(found, errors) == Tally(Outcomes(helpers), start, results[..i])
      {
        assert results[..i + 1][..i] == results[..i];
        HandleBlock(results[i]);
        i := i + 1;
      }
      assert results[..i] == results;
    }

    /** `parse_results`: the cascade, the loop over the blocks and the
        pagination, following at most `fuel` next links. */
    method ParseResults(page: Page, fuel: nat) returns (raised: bool)
      modifies this
      ensures (Stats(found, errors), raised) == Traverse(TexasReader(helpers), web, page, fuel, old(Stats(found, errors)))
      decreases fuel, 1, 0
    {
      var results := FindResults(page);
      HandleBlocks(results);
      raised := FollowPager(page, fuel);
    }

    /** The pagination of `parse_results`: the page's "Next" link. */
    method FollowPager(page: Page, fuel: nat) returns (raised: bool)
      modifies this
      ensures (Stats(found, errors), raised) == FollowNext(TexasReader(helpers), web, page, fuel, old(Stats(found, errors)))
      decreases fuel, 0, 1
    {
      var next := NextHref(page);
      assert next == TexasReader(helpers).next(page);
      raised := FollowLink(next, fuel);
    }

    /** A truthy "Next" link is made absolute and fetched, and the fetched
        page is parsed in turn. */
    method FollowLink(next: Option<string>, fuel: nat) returns (raised: bool)
      modifies this
      ensures (Stats(found, errors), raised) == FollowHref(TexasReader(helpers), web, next, fuel, old(Stats(found, errors)))
      decreases fuel, 0, 0
    {
      raised := false;
      if next.Some? {
        if fuel == 0 {
          raised := true;
        } else {
          var response := web.get(AbsoluteUrl(next.value));
          if response.Raised? {
            raised := true;
          } else if response.value.Some? {
            raised := ParseResults(response.value.value, fuel - 1);
          }
        }
      }
    }

    /** The shared body of `search_by_city` and `search_by_letter`. */
    method SearchWith(form: FormData, fuel: nat)
      modifies this
      ensures Stats(found, errors) == Search(TexasReader(helpers), web, form, fuel, old(Stats(found, errors)))
    {
      var response := web.post(ApiUrl, form);
      if response.Raised? {
        errors := errors + 1;
        return;
      }
      if response.value.None? {
        return;
      }
      var raised := ParseResults(response.value.value, fuel);
      if raised {
        errors := errors + 1;
      }
    }

    /** `search_by_city`. */
    method SearchByCity(city: string, fuel: nat)
      modifies this
      ensures Stats(found, errors) == Search(TexasReader(helpers), web, CityForm(city), fuel, old(Stats(found, errors)))
    {
      SearchWith(CityForm(city), fuel);
    }

    /** `search_by_letter`. */
    method SearchByLetter(letter: string, fuel: nat)
      modifies this
      ensures Stats(found, errors) == Search(TexasReader(helpers), web, LetterForm(letter), fuel, old(Stats(found, errors)))
    {
      SearchWith(LetterForm(letter), fuel);
    }
  }
}
