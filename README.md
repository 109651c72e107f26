# Attorney directory scraper: the Texas scraper and its SQLite store

This project is a Dafny model of two parts of an attorney-directory scraper.

The first is the State Bar of Texas scraper (`texas_bar.py`):
- the three-strategy search for result blocks on a page;
- the table-row extractor and the div extractor;
- the loop that counts attorneys found and errors;
- pagination through "Next" links;
- the two searches, by city and by last-name letter.

The second is its SQLite store (`database.py`):
- the upsert of an attorney together with its practice areas;
- the scrape-log statements;
- the attorney search query.

Files and modules:
- `wrappers.dfy` (`Wrappers`): `Option` and `Try` (a Python call that returned a value or raised), and the truthiness of an optional string.
- `strings.dfy` (`Strings`): Python's whitespace and digit classes, case-insensitive regex matching, `str.title` and `str.strip`.
- `html.dfy` (`Html`): a parsed page as a tree of tags and text nodes.
  - `Flatten` is document order.
  - `Walk` pairs every node with the part of the document that follows its subtree; this gives `find_next`.
  - `Filter` and `Find` are `find_all` and `find`.
- `patterns.dfy` (`Patterns`): each regular expression of the scraper written out as a predicate or an extracting function. Each comes with its leftmost-match specification.
- `texas_bar.dfy` (`TexasBar`): the extraction functions, the counting and pagination functions, and the class `TexasBarScraper`.
  - The class's methods (`ParseTableRow`, `ParseResults`, `SearchByCity`, …) update the `found` and `errors` counters in place.
  - Each method is proved equal to its specification function.
- `sql.dfy` (`Sql`): SQLite's `LIKE`, the `BINARY` collation with `NULL` first, and `LIMIT`.
- `database.dfy` (`Database`): the three tables as a value `Db`, each statement as a function on it, and the class `Connection`. Its methods run the statements in place, with the loops of the source.

The scraper's inherited helpers are parameters:
- `clean_text`, `parse_name` and `save_attorney` are in the `Helpers` datatype;
- `post_page` and `get_page`, together with HTML parsing, are in the `Web` datatype.

Each of these returns a `Try`, so a raise inside one of them reaches the `except` branches that the source has.

Where the design description of the system and the code disagree, the model follows the code:
- **No cycle guard in pagination.** The design describes a cycle guard over visited pages. The code has none: any truthy "Next" link is followed. The model bounds the recursion with a `fuel` count that stands for Python's recursion limit.
- **Practice areas are never extracted.** The design says extractors collect practice-area tokens. Both extractors of the code always return an empty list.
- **The primary flag depends on the list index.** The design says the first listed area is flagged primary. The code flags index 0 only, so when entry 0 is empty, no area is primary (`Database.AtMostOnePrimary`).
- **Extraction can raise.** The design says extraction never raises. In the code, a raise in a helper while parsing or saving a block counts as one error, and the loop goes on.

## Model

| member | source | states |
|---|---|---|
| TexasBar.ClassStrategyWins | texas_bar.py:102-104 | the class strategy finds blocks exactly when some tag of the page carries one of the three result classes; the other strategies are then not consulted and every block carries a result class |
| TexasBar.TableStrategyRows | texas_bar.py:104-108 | when no tag carries a result class, the blocks are the rows of the first result-like table, in document order, minus the header row |
| TexasBar.DivStrategyFallback | texas_bar.py:110-112 | when the first two strategies find nothing, the blocks are exactly the result-like divs in document order |
| TexasBar.KeepNonEmpty | texas_bar.py:102-112 | a selection over the whole page is non-empty exactly when some node satisfies its test |
| TexasBar.TexasBarScraper.FindResults | texas_bar.py:102-112 | the cascade returns the blocks of the first strategy that finds any |
| TexasBar.TexasBarScraper.ScanCell | texas_bar.py:162-178 | one pass of the cell loop computes what the cell specification `CellStep` gives, a raise included |
| TexasBar.CellStepFacts | texas_bar.py:166-178 | a pass keeps a known name and takes a missing one from the cell's link; a changed bar number is a query digit run or an eight-digit text; a changed city is one of the five |
| TexasBar.CellStepSources | texas_bar.py:166-178 | a pass never loses a bar number or city already found; a changed bar number is the query value of this cell's link or its eight-digit text, a changed city its title-cased text; a cell without a link holding eight digits sets the bar number, and one naming a city sets the city |
| TexasBar.RowScanFacts | texas_bar.py:162-178 | after the loop, the name is that of the first link that cleans to a non-empty text, and stays falsy only if no link does; the bar number and the city have the shapes the tests demand |
| TexasBar.RowScanRaised | texas_bar.py:162-167 | a raise on some cell makes the whole row raise |
| TexasBar.TableRowNoRecord | texas_bar.py:150-181 | a row with fewer than two cells, or with no link that cleans to a non-empty name, yields no record |
| TexasBar.RowScanSources | texas_bar.py:162-178 | after the loop, a bar number is the query value of some cell's link or some cell's eight-digit text, a city is the title-cased text of some cell; a cell without a link holding eight digits (or a city) makes the bar number (or the city) present |
| TexasBar.TableRowRecord | texas_bar.py:150-193 | a record from a row has at least two cells, a non-empty name from the first naming link, names from `parse_name`, status `Active`, a bar number of digit shape taken from some cell's link query or eight-digit text and present whenever a cell without a link holds eight digits, a city among the five taken from some cell's text and present whenever a cell without a link names one, and no firm or practice areas |
| TexasBar.TexasBarScraper.ParseTableRow | texas_bar.py:150-193 | the loop over the cells returns exactly the row specification `TableRow` |
| TexasBar.FirmSource | texas_bar.py:220-223 | with no firm label below the div the firm is `None`; otherwise it is the cleaned text of the first tag after the first label in document order, which may lie outside the div |
| TexasBar.DivCityKnown | texas_bar.py:215-218 | in an ASCII text the reported city is one of the six names, and there is none exactly when the pattern matches nowhere |
| TexasBar.DivNoName | texas_bar.py:204-226 | a div without a heading, link or strong tag yields no record |
| TexasBar.DivRecord | texas_bar.py:195-239 | a record from a div has a non-empty name from the first name tag, names from `parse_name`, status `Active`, a bar number of eight digits after a Bar label (the leftmost capture `BarLabelNumber` gives, absent exactly when no label matches), the city `DivCity` gives (the title-cased leftmost mention, one of the six for ASCII text), and the firm `FirmOf` reads |
| TexasBar.RecordShape | texas_bar.py:141-148 | whichever extractor `parse_result` dispatches to, a record has a non-empty name, status `Active`, no practice areas and the names `parse_name` gave |
| TexasBar.TexasBarScraper.ParseResult | texas_bar.py:141-148 | rows go to the table extractor and everything else to the div extractor |
| TexasBar.CountPartition | texas_bar.py:115-128 | every block is recorded, skipped or failed, exactly once |
| TexasBar.TallyCounts | texas_bar.py:114-128 | the loop raises `found` by the number of blocks saved and `errors` by the number whose parse or save raised |
| TexasBar.TexasBarScraper.HandleBlocks | texas_bar.py:115-128 | the loop over the blocks leaves the counters as the tally of the blocks' outcomes, in order |
| TexasBar.TexasBarScraper.HandleBlock | texas_bar.py:116-128 | one block bumps `found` when its record is saved and `errors` when parsing or saving raises |
| TexasBar.TexasBarScraper.Record | texas_bar.py:118-121 | a saved record counts as found and a raise as an error |
| TexasBar.NextHref | texas_bar.py:131-132 | a next link is followed only when its `href` is truthy |
| TexasBar.NextHrefFirstPager | texas_bar.py:130-131 | the next link comes from the first `next` link of the page and no other: none without one, its `href` when that is truthy, and none (later links unread) when it is not |
| TexasBar.AbsoluteUrl | texas_bar.py:134-136 | a link that does not start with `http` is prefixed with the site's base; the result always starts with `http` |
| TexasBar.Visits | texas_bar.py:131-139 | a traversal parses between one and `fuel + 1` pages, starting with the first, and ends in a raise when a fetch raises or a next link lies past the recursion limit |
| TexasBar.TraverseCounts | texas_bar.py:95-139 | over every page it visits, a traversal counts exactly the saved records as found and the failed blocks as errors, and it ends with a raise exactly when its last fetch raised or the recursion limit was reached |
| TexasBar.SelfLinkRaises | texas_bar.py:130-139 | a page whose next link leads back to itself is parsed once per level of recursion left, and the traversal then raises |
| TexasBar.TwoPageTraversal | texas_bar.py:131-139 | two pages linked by a next link, with two and one saved records, give three found and no raise |
| TexasBar.TexasBarScraper.ParseResults | texas_bar.py:95-139 | parsing a page with its pagination leaves the counters, and reports a raise, as the traversal specification says |
| TexasBar.TexasBarScraper.FollowPager | texas_bar.py:130-139 | the page's next link is followed as the specification says |
| TexasBar.TexasBarScraper.FollowLink | texas_bar.py:132-139 | with no recursion depth left a next link raises; otherwise it is made absolute and fetched; a falsy response ends the traversal and a fetched page is parsed in turn |
| TexasBar.SearchCounts | texas_bar.py:51-93 | a search whose POST raises counts one error; a falsy response changes nothing; otherwise the pages visited add their saved records to `found` and their failures, plus one for a raised fetch or a next link past the recursion limit, to `errors` |
| TexasBar.TexasBarScraper.SearchWith | texas_bar.py:54-72 | the shared search body changes the counters as the search specification says |
| TexasBar.TexasBarScraper.SearchByCity | texas_bar.py:51-72 | the city search posts the city form and counts as `Search` says |
| TexasBar.TexasBarScraper.SearchByLetter | texas_bar.py:74-93 | the letter search posts the letter form and counts as `Search` says |
| Patterns.BarNumberQuery | texas_bar.py:170-172 | the bar number from a link is the whole digit run after the leftmost `BarNumber=` followed by a digit, and is absent exactly when there is none |
| Patterns.BarLabelNumber | texas_bar.py:211-213 | the bar number of a div is eight digits at the leftmost Bar label that matches, and is absent exactly when no position matches |
| Patterns.BarCaptureUnique | texas_bar.py:211 | once the label's position is fixed, the captured eight digits are determined |
| Patterns.CityMention | texas_bar.py:216-218 | the city text is the leftmost match of the six names, as written in the text, and is absent exactly when none matches |
| Patterns.CityMatchTitle | texas_bar.py:218 | an ASCII text matching a city name title-cases to that name's own spelling |
| Strings.Title | texas_bar.py:177-178 | a letter is lowered after a letter and raised elsewhere; the length is kept |
| Strings.Strip | database.py:163 | the result has no whitespace at either end and sits in the input with only whitespace around it |
| Html.FirstTextFollowing | texas_bar.py:221-223 | the first text node that a search below a node finds is followed by the rest of that subtree and then the rest of the document |
| Html.WalkFollowing | texas_bar.py:221-223 | each located node carries the document after its own subtree |
| Html.Find | texas_bar.py:164 | `find` returns the first node satisfying the test, and `None` exactly when none does |
| Html.FilterMembers | texas_bar.py:152 | `find_all` keeps exactly the nodes satisfying the test |
| Database.NextRowid | database.py:29 | an `AUTOINCREMENT` rowid is above the counter and every rowid in the table, and is one more than one of them |
| Database.KeyIndex | database.py:48 | the conflicting row holds the key `(bar_number, state)`; with a `NULL` bar number nothing conflicts |
| Database.EmptyDbValid | database.py:27-95 | fresh tables satisfy the uniqueness invariants |
| Database.UpsertInserts | database.py:116-152 | without a conflict one row is appended with a fresh rowid, and the other rows are unchanged |
| Database.NullBarAlwaysAdds | database.py:48 | a record without a bar number is always inserted as a new row |
| Database.UpsertUpdates | database.py:122-134 | on conflict the eleven listed columns and `updated_at` take the new values; the rowid, the key, the admission and school columns and `created_at` are kept; other rows are untouched and `last_insert_rowid()` does not move |
| Database.UpsertOneRowPerKey | database.py:116-134 | after an upsert with a bar number, exactly one row holds the key, and it is the row written |
| Database.UpsertKeepsValid | database.py:116-134 | the upsert keeps rowids and keys unique |
| Database.TwoUpsertsOneRow | database.py:116-134 | two upserts with the same key leave one row for it, with the second record's name and the first row's id |
| Database.AreaStepShape | database.py:159-163 | one area pass either keeps `practice_areas` or appends the stripped entry with its primary flag when the pair is new; other tables are untouched |
| Database.AttachedFrame | database.py:157-163 | the area loop only appends to `practice_areas` and leaves the other tables alone |
| Database.AttachedNew | database.py:157-163 | every appended area row belongs to the attorney and comes from a non-empty entry, stripped, with primary exactly at index 0 |
| Database.AttachedStores | database.py:157-163 | after the loop every non-empty entry is stored stripped for the attorney |
| Database.AttachedValid | database.py:60 | the area loop keeps rowids and `(attorney_id, practice_area)` unique |
| Database.AttachIdempotent | database.py:160-163 | attaching the same list again changes no area row |
| Database.AtMostOnePrimary | database.py:158-163 | at most one appended row is primary, and only when entry 0 is non-empty, carrying entry 0 stripped |
| Database.InsertFails | database.py:167-169 | the insert returns `None` and changes nothing exactly when the state or full name is missing |
| Database.InsertStaleOnConflict | database.py:154 | as written, a conflicting insert reports the connection's last inserted rowid, not the updated row's id |
| Database.StaleIdExample | database.py:154 | inserting A, then B, then A again reports B's rowid for the third call |
| Database.InsertKeyedHolder | database.py:154-165 | the corrected insert returns the id of the row holding the data, attaches every new area to it and keeps the tables valid |
| Database.InsertWithoutConflict | database.py:116-165 | without a conflict the insert as written appends the row, reports its rowid and attaches the areas to it, as the corrected insert does |
| Database.InsertKeepsValid | database.py:116-165 | the insert as written keeps rowids and keys unique in every table |
| Database.Connection.AttachEntry | database.py:158-163 | one pass of the area loop stores a non-empty entry stripped with `INSERT OR IGNORE`, as `AreaStep` says |
| Database.Connection.AttachAll | database.py:157-163 | the loop over the practice areas leaves the tables that `Attached` gives |
| Database.InsertFreshNoAreas | database.py:116-154 | a record with no areas and no conflict is appended with the drawn rowid, which becomes `last_insert_rowid()` and is returned |
| Database.Connection.InsertAttorney | database.py:111-169 | the upsert followed by the loop over the areas leaves the tables, and returns the id, that `Insert` gives |
| Database.StartLogFacts | database.py:172-180 | a new log entry has a fresh id, the given state, the start time and status `running`; earlier entries and other tables are unchanged |
| Database.Connection.StartScrapeLog | database.py:172-180 | the statement raises for a `NULL` state and otherwise stores the entry `StartLog` gives and returns its id |
| Database.ResolveSome | database.py:187-191 | the `SET` list is built exactly when every keyword names a column |
| Database.ResolvePairs | database.py:187-191 | each keyword's column is paired with its value, in order |
| Database.AssignColumns | database.py:194-196 | an assignment fails exactly on the rowid with a value that is neither an integer nor an integer numeral; otherwise it sets its column to the stored value and no other |
| Database.AssignIdText | database.py:194-196 | a rowid given as the numeral text of an integer is stored as that integer |
| Sql.IntegerText | database.py:194-196 | a text converts to an integer only when it is an optional sign followed by ASCII digits, with the sign deciding the sign of the value |
| Sql.IntTextRoundTrip | database.py:194-196 | a numeral written by `str` from an integer converts back to that integer under integer affinity |
| Database.ApplyAllColumns | database.py:196 | after the assignments a column holds its rightmost assigned value, as stored (a rowid numeral as its integer), or its old one |
| Database.UpdateRaises | database.py:187-197 | an update with no keywords, or with one naming no column, raises |
| Database.UpdateChangesNamed | database.py:183-197 | a successful update changes only the entry with the id, and only its named columns; the invariant is kept |
| Database.UpdateSetsNamed | database.py:189-197 | each named column gets the value of the rightmost keyword naming it, as stored (a rowid numeral as its integer) |
| Database.UpdateMissingId | database.py:195-197 | with an id no entry has, a well-formed update changes nothing |
| Database.Connection.UpdateScrapeLog | database.py:183-198 | the loop builds the `SET` list and the statement changes `scrape_logs` as `UpdateLogs` says, and nothing else |
| Database.AreasOf | database.py:262 | the joined areas are exactly those of the attorney |
| Database.SelectRows | database.py:259-264 | the query selects exactly the rows some joined row of which meets every condition, none more often than stored |
| Database.HoldsAllOf | database.py:265-289 | a joined row meets the built conditions exactly when the attorney meets every truthy row filter and the joined area the area filter |
| Database.JoinedAreaOk | database.py:271-273 | some joined row meets the area condition exactly when some stored area of the attorney matches |
| Database.ConditionsMeanFilters | database.py:259-289 | the query selects exactly the attorneys that every truthy filter wants |
| Database.NameLeTotal | database.py:291 | the name order is total |
| Database.NameLeTrans | database.py:291 | the name order is transitive |
| Database.SortByNameSorted | database.py:291 | the result is ordered by last name, then first name, `NULL` first |
| Database.SearchSound | database.py:254-300 | every row returned is a stored attorney that every filter accepts, none more often than stored, ordered by name |
| Database.SearchCompleteUpToLimit | database.py:291-294 | a truthy positive limit returns the smaller of it and the number of matches; no limit returns every match; a match left out never sorts before one returned |
| Database.SearchCityContains | database.py:275-277 | with a wildcard-free city filter every row returned has a city containing it, ASCII case ignored |
| Database.Connection.SearchAttorneys | database.py:254-300 | building the conditions, selecting, ordering and limiting returns `SearchResult` |
| Sql.LikeContains | database.py:276-277 | `LIKE '%x%'` with a wildcard-free `x` is an ASCII-case-insensitive substring test |
| Sql.LikeUnderscore | database.py:273 | the filter value is not escaped: `_` matches every non-empty text |
| Sql.TextLeTotal | database.py:291 | the `BINARY` collation is total |
| Sql.TextLeTrans | database.py:291 | the `BINARY` collation is transitive |
| Sql.TextLeAntisymmetric | database.py:291 | the `BINARY` collation is antisymmetric |
| Sql.Limited | database.py:293-294 | `LIMIT n` keeps the first `n` rows, and a negative `n` keeps them all |

## Left out

- The HTTP layer (`post_page`, `get_page`), the delays and `print_progress`. Responses are the `Web` parameter; delays and progress output change no state that is modelled.
- The bodies of `clean_text`, `parse_name` and `save_attorney`, which are not part of this model. They are parameters that may return any value or raise.
- HTML parsing itself. A page is given as an already parsed tree; comments, doctype and processing instructions are not node kinds of the model.
- Strings.Title, Strings.IsDigit, Patterns.BarNumberQuery, Patterns.BarLabelNumber: `\d` and `str.title()` are ASCII-only in the model. Python also accepts non-ASCII decimal digits and cases non-ASCII letters.
- TexasBar.Traverse: `fuel` stands for Python's recursion limit. In the source a chain of next links that is too long, or a cycle, ends in a `RecursionError`, which reaches the search's `except` and counts one error. The model raises when a next link is met with no fuel left. The exact depth is not modelled, nor which call the error surfaces in: one raised inside the loop over a page's blocks would be counted there as a block error instead.
- The scraping driver, `get_stats`, `export_to_csv`, `init_database` (apart from the tables' constraints) and everything in `run_scrapers.py`.
- SQL text, connections, cursors, transactions and `commit`. Each statement is modelled by its effect on the tables.
- `CURRENT_TIMESTAMP` and `datetime.now()` are the `now` parameter.
- Database.Assign: the rowid converts a text only when it is an optional sign followed by ASCII digits. SQLite also converts such a text with surrounding spaces, a decimal or exponent form with an integer value (`'7.0'`), and a Python `float` with an integer value; the model raises for these. Values outside the 64-bit range are not told apart.
- Database.Connection.UpdateScrapeLog: it has the rowid conversion of `Database.Assign` above. The other columns store values as bound, without the type affinities of their declared types (SQLite stores a text `'5'` given for `attorneys_found` as the integer 5).
- Keyword names that are not valid SQL identifiers, which would change the statement's syntax.
- A non-list `practice_areas` value, and entries that are not strings.
- SQLite's limit on `LIKE` pattern length, and rowid overflow past 2^63 − 1.
- Database.UpdateLogs: the constraint checks are made once on the final row, not per assignment. The outcome is the same for a single-row update.
- Database.SearchResult: the model sorts rows whose names tie in table order. SQLite leaves that order open, so the lemmas state only what every order has in common.
- `search_attorneys` opening and closing its own connection: the model reads the given tables.
- Database.NextRowid: a rowid is assumed to be drawn from `AUTOINCREMENT` even when the statement then updates or ignores (as SQLite's insert code allocates it before the constraint checks). Only the rowid values depend on this.

## Findings

| source | as written | input that shows it | evidently intended | confidence | as-written member | corrected member |
|---|---|---|---|---|---|---|
| database.py:154 | the id returned, and used for the practice areas, is `cursor.lastrowid`. After an upsert that takes the `DO UPDATE` path, this is the rowid of the last insert on the connection, not the updated row's id | insert A (bar 1), then B (bar 2), then A again (bar 1): the third call returns 2, which is B's row, and attaches A's practice areas to B | return, and attach the areas to, the rowid of the row holding `(bar_number, state)` | not executed | Database.Insert (shown by Database.StaleIdExample and Database.InsertStaleOnConflict) | Database.InsertKeyed (proved by Database.InsertKeyedHolder) |
