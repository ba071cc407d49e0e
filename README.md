# quectocms in Dafny

A model of the storage and decision core of quectocms, a micro CMS written as
a small Flask application over SQLite. The model covers four tables, the
services that sit on top of them, and the proofs about both:

- **pages**: content blocks `(id, page, page_order, locale, content, position)`
  with `UNIQUE(page, locale, position)`.
- **params**: a key/value store with unique names, seeded once.
- **media**: uploads addressed by content, with unique `sha256` and unique
  `rel_path`.
- **comments**: visitor comments with AUTOINCREMENT ids.

Above the tables sit:

- the comment validator, `CommentService.add`;
- the path normalisation of `MediaService.delete`;
- the add-page and page-view decisions of `PageService`.

Each table is a Dafny class. It holds the rows as a `seq` and the next
AUTOINCREMENT id as an `int`, and its `Valid()` predicate states the
table's uniqueness constraints. The SQL statements that change the table
are methods. The SELECT statements are functions over the rows, with
SQL's semantics written out:

- `WHERE` is a filter.
- `ORDER BY` is a sort, proved to be a sorted permutation.
- `GROUP BY ... MIN` is a multiplicity statement: every page listed
  exactly once.
- `LIMIT` is a length bound.
- `ON CONFLICT DO UPDATE` is an in-place update or an append.
- A UNIQUE violation is the `Err(UniqueViolation)` of a `Result`, and the
  table is left unchanged.
- A Python integer that does not fit SQLite's 64-bit INTEGER makes
  sqlite3 raise `OverflowError` when it binds the parameter. That is the
  `Err(IntegerOverflow)` of a `Result`, and the table is left unchanged.

The services are classes that hold the tables they use, and they return
`Response` values. A `Response` names the template and its arguments, or
the redirect target. A `ServerError` stands for an exception that escapes
a handler.

Python's string operations are written out in module `Text`:

- `str.strip()` with Python's full whitespace set;
- the truth value of an optional string;
- `str.startswith`;
- `str.isdigit()`, `str.isdecimal()`;
- `int()` on a string of digits.

Timestamps (`CURRENT_TIMESTAMP`, `strftime(..., 'localtime')`) are values
the caller passes in.

Files: `common.dfy` has Option, Result, pairwise predicates, filters and
insertion sort. `text.dfy` has the Python strings. Then there is one
file per source file: `page_model.dfy`, `home_model.dfy`,
`media_model.dfy`, `comment_model.dfy`, `comment_service.dfy`,
`media_service.dfy`, `page_service.dfy`. `responses.dfy` holds the
responses.

## Model

| member | source | states |
|---|---|---|
| Pages.PageModel.constructor | models/page_model.py:18-31 | a newly created pages table is empty and its AUTOINCREMENT counter starts at 1 |
| Pages.MinOrder | models/page_model.py:37-40 | `MIN(page_order) WHERE page=?` is `None` exactly when the page has no rows; otherwise it is the order of one of the page's rows and no larger than any of them |
| Pages.MaxOrder | models/page_model.py:41-43 | `MAX(page_order)` is `None` exactly on an empty table; otherwise it is attained by some row and no row exceeds it |
| Pages.ResolvePageOrder | models/page_model.py:33-43 | a stored page gets the smallest order among its rows; a new page on a non-empty table gets an order of the form stored order + 1 that exceeds every stored order; an empty table gives 0 |
| Pages.ResolvedOrderKeepsRank | models/page_model.py:45-49 | adding a block with order 0 to a stored page leaves that page's `MIN(page_order)` unchanged |
| Pages.NewPageRanksLast | models/page_model.py:41-49 | adding a block with order 0 under a new name to a non-empty table ranks the new page strictly after every stored page |
| Pages.StoredOrder | models/page_model.py:45-49 | `add` stores a non-zero `page_order` as given; for 0, a stored page gets its smallest order and a new page an order above every stored one |
| Pages.PageModel.Add | models/page_model.py:45-56 | fails with `OverflowError`, changing nothing, exactly when the position or the stored order does not fit SQLite's 64-bit INTEGER; otherwise fails with a UNIQUE violation, changing nothing, exactly when the (page, locale, position) slot is taken; otherwise appends one row with a fresh id, the resolved or given order, and exactly the given fields, and returns the id |
| Pages.Select | models/page_model.py:60-65 | `WHERE page=? AND locale=?` keeps exactly the rows with that page and locale, each no more often than stored |
| Pages.OrderedByPosition | models/page_model.py:60-65 | `ORDER BY position` is a permutation of the selected rows, sorted by position |
| Pages.OrderedPositionsStrict | models/page_model.py:29 | under `UNIQUE(page, locale, position)`, the rows of one page and locale have strictly increasing positions once ordered |
| Pages.Get | models/page_model.py:58-66 | `get` returns one content per matching row, the i-th being the content of the i-th row in position order |
| Pages.PageModel.Delete | models/page_model.py:68-71 | an id beyond 64 bits raises `OverflowError` and changes nothing; otherwise removes exactly the rows with that id, keeps the others in order, and reports the id |
| Pages.PageModel.DeleteByName | models/page_model.py:73-76 | removes exactly the rows of that page name, keeps the others, and reports the name |
| Pages.PageModel.Edit | models/page_model.py:78-81 | removes exactly the rows of that page name and keeps the others |
| Pages.DistinctPages | models/page_model.py:86-89 | `GROUP BY page` lists every stored page name exactly once and nothing else |
| Pages.Rank | models/page_model.py:87-90 | the sort key of a stored page is its `MIN(page_order)` |
| Pages.PagesList | models/page_model.py:83-92 | `get_pages_list` lists every stored page exactly once and nothing else, in non-decreasing order of the pages' smallest `page_order` |
| Pages.OrderedByPositionAndId | models/page_model.py:97-102 | `ORDER BY position ASC, id ASC` is a permutation of the selected rows, sorted by position and then id |
| Pages.OrderedPositionsAndIdsStrict | models/page_model.py:29 | under the UNIQUE constraint, the (position, id) order is also strictly increasing in position |
| Pages.BlocksForPage | models/page_model.py:94-104 | `get_blocks_for_page` returns one `{id, position, content}` per matching row, in (position, id) order |
| Pages.StrictOrderUnique | models/page_model.py:97-102 | two orderings of the same rows that are both strictly increasing in position are equal |
| Pages.GetMatchesBlocks | models/page_model.py:58-104 | on a consistent table, `get` returns exactly the contents of `get_blocks_for_page`, in the same order, whatever tie-break either sort uses |
| Pages.Updated | models/page_model.py:106-113 | the UPDATE changes only the position and content of the row with that id; every other row and every other field is kept |
| Pages.UpdateClashes | models/page_model.py:106-113 | an UPDATE can break `UNIQUE(page, locale, position)` only when a row has the id and its page and locale already hold the new position |
| Pages.UpdatedKeepsInvariant | models/page_model.py:106-113 | an UPDATE that moves the row to a free slot keeps ids and slots unique |
| Pages.PageModel.UpdateBlock | models/page_model.py:106-113 | raises `OverflowError`, changing nothing, exactly when the position or the id does not fit 64 bits; otherwise fails, changing nothing, exactly when another row of the block's page and locale holds the new position; otherwise the table becomes the updated rows |
| Pages.PageModel.DeleteBlockById | models/page_model.py:115-118 | an id beyond 64 bits raises `OverflowError` and changes nothing; otherwise removes exactly the row with that id and keeps the others |
| Home.HomeModel.constructor | models/home_model.py:15-17 | a database file that has no params table yet; `HomeModel()` is this followed by `InitDb` |
| Home.HomeModel.InitDb | models/home_model.py:19-37 | on an existing table nothing changes; otherwise the table is created with exactly the three seed rows and the next id 4 |
| Home.SeedRows | models/home_model.py:29-37 | the seed is three rows, one for each of `version`, `creation_date` and `modification_date` |
| Home.SeedRowsValid | models/home_model.py:29-37 | the seed rows have ids 1 to 3 and three different names |
| Home.SeededFooter | models/home_model.py:29-37 | right after seeding, the footer reads version `0.2.0`, creation date `17.10.2025 21:30` and the seeding time as modification date |
| Home.Param | models/home_model.py:39-44 | `get_param` is `None` exactly when no row has the name; otherwise it is the value of a row with that name |
| Home.ParamIsStoredValue | models/home_model.py:39-44 | with unique names, `get_param` returns the value of the one row that has the name |
| Home.Upsert | models/home_model.py:46-53 | after the upsert a row has the name, every row of another name is kept, and no row of another name is added |
| Home.UpsertKeepsInvariant | models/home_model.py:46-53 | the upsert keeps ids and names unique, keeps the table size for a stored name and adds one row for a new name |
| Home.UpsertSetsValue | models/home_model.py:46-53 | after `set_param(n, v)`, `get_param(n)` is `v` |
| Home.UpsertKeepsOthers | models/home_model.py:46-53 | `set_param(n, v)` leaves `get_param` of every other name unchanged |
| Home.HomeModel.SetParam | models/home_model.py:46-53 | the table becomes the upsert of the name and value; afterwards the name reads the value and every other name reads as before |
| Home.FooterData | models/home_model.py:55-69 | the footer has exactly the keys `version`, `creation_date` and `modification_date`, each mapped to `get_param` of that key |
| Home.HomeModel.GetFooterData | models/home_model.py:55-69 | the loop builds a footer that is never `None`; it has exactly the three keys, each mapped to its stored value or `None` |
| Media.MediaModel.constructor | models/media_model.py:17-29 | a newly created media table is empty and its counter starts at 1 |
| Media.GetByHash | models/media_model.py:31-37 | `None` exactly when no row has the hash; otherwise a stored row with that hash |
| Media.GetByHashFindsRow | models/media_model.py:31-37 | with unique hashes, looking up a stored row's hash returns that very row |
| Media.InsertClashes | models/media_model.py:39-44 | a hash that `get_by_hash` finds always blocks the INSERT; an INSERT that does not clash uses a path no row has |
| Media.MediaModel.Insert | models/media_model.py:39-44 | fails, changing nothing, exactly when the hash or the path is already stored; otherwise appends one row with a fresh id and the given fields, and returns the id |
| Media.PathCountAtMostOne | models/media_model.py:46-51 | with unique paths, at most one row has a given path |
| Media.MediaModel.Delete | models/media_model.py:46-51 | removes exactly the rows with that path and returns their count, which is 0 or 1, and 0 exactly when no row has the path |
| Media.Recent | models/media_model.py:53-64 | returns min(25, stored) rows drawn from the table, newest first; no row left out is newer than any row returned |
| Comments.CommentModel.constructor | models/comment_model.py:18-34 | a newly created comments table is empty and its counter starts at 1 |
| Comments.CommentModel.Add | models/comment_model.py:36-63 | appends exactly one row holding the given ip, user and comment under a fresh id, and returns that id; the falsy-id branch never runs, since ids start at 1 |
| Comments.GetAll | models/comment_model.py:65-71 | one record per stored row; a record is listed exactly when it is the record of a stored row |
| Comments.AddedCommentListed | models/comment_model.py:36-71 | after `add`, `get_all` lists the new comment with its id and fields, and no other record carries that id |
| CommentServices.Validate | services/comment_service.py:16-23 | the first blank field among user, ip and comment, in that order, gives its code; `None` exactly when all three hold non-space text |
| CommentServices.CommentService.constructor | services/comment_service.py:13-14 | the service works on the comments table it is given; the source builds its own `CommentModel()` |
| Text.TrimStartCuts | services/comment_service.py:18-23 | `lstrip()` keeps a suffix that is empty or starts with a non-space, and cuts off only whitespace |
| Text.TrimEndCuts | services/comment_service.py:18-23 | `rstrip()` keeps a prefix that is empty or ends with a non-space, and cuts off only whitespace |
| Text.StripEmptyIffAllSpace | services/comment_service.py:18-23 | `s.strip()` is empty exactly when every character of `s` is whitespace |
| CommentServices.BlankIgnoresPadding | services/comment_service.py:18-23 | `not s.strip()` does not change when whitespace is added on either side |
| CommentServices.ValidateIgnoresPadding | services/comment_service.py:18-19 | whitespace around the user never changes the verdict |
| CommentServices.CommentService.Add | services/comment_service.py:16-28 | a blank field yields `(False, code)` and stores nothing; otherwise the unstripped fields are stored and `(True, id)` returned; `UNKNOWN_ERROR` never occurs |
| MediaServices.NormalizeRelPath | services/media_service.py:46-49 | the normalised path is a suffix of the decoded path |
| MediaServices.StripsStaticPrefix | services/media_service.py:46-47 | a path under `/static/` loses exactly that prefix |
| MediaServices.StripsRelativeStaticPrefix | services/media_service.py:48-49 | a path under `static/` loses exactly that prefix |
| MediaServices.RemovesOnePrefixOnly | services/media_service.py:46-49 | only one prefix goes: `/static/static/x` becomes `static/x` |
| MediaServices.KeepsOtherPaths | services/media_service.py:46-49 | a path with neither prefix is unchanged |
| MediaServices.MediaService.constructor | services/media_service.py:19-20 | the service works on the media table it is given; the source builds its own `MediaModel()` |
| MediaServices.MediaService.Delete | services/media_service.py:42-58 | when `unlink` removed the file or found none, the media rows of the normalised path are deleted and the answer is the redirect to `admin_page` in the given locale; when `unlink` raised any other error, no row is deleted and the answer is a server error |
| PageServices.PageService.constructor | services/page_service.py:16-19 | the service works on the given pages, params and comments tables |
| PageServices.DetectLocale | services/page_service.py:57-58 | the locale is always `en` |
| PageServices.PageService.RenderPage | services/page_service.py:33-50 | a redirect to `add_page` exactly when the site title is missing or empty; otherwise the page view with the page's contents in position order, the title, all comments, the footer and the page menu |
| PageServices.Field | services/page_service.py:97-100 | `form.get(k) or ''` is empty exactly when the field is missing or sent empty, and otherwise the text sent |
| PageServices.BlockGuardAsWritten | services/page_service.py:101 | the guard as written admits only forms that carry the page, position, page order and content fields |
| PageServices.BlockGuard | services/page_service.py:101 | the corrected guard admits only forms that the guard as written admits |
| Text.DecimalParses | services/page_service.py:101-102 | a decimal string passes `isdigit()` and `int()`, as `ParseInt` models it without CPython's digit limit, reads it |
| Text.ParseIntNeedsDecimal | services/page_service.py:101-102 | `int()` reads only decimal strings |
| PageServices.AsWrittenGuardAdmitsSuperscript | services/page_service.py:97-102 | the guard as written admits the position `²`, on which `int()` fails |
| PageServices.GuardCorrection | services/page_service.py:97-102 | the corrected guard admits exactly the forms that the guard as written admits and on which both `int()` calls, as `ParseInt` models them, succeed |
| PageServices.ParseBlockForm | services/page_service.py:97-102 | a block exactly when the stripped page and content are non-empty and both numbers are decimal; it carries the stripped texts and the numbers `int()` reads |
| PageServices.Decide | services/page_service.py:79-121 | a title is stored only when none is set |
| PageServices.DecideSpec | services/page_service.py:67-121 | a GET shows the form with the stored title. A POST without a title stores the stripped title field exactly when it is non-blank, and otherwise shows the form with no title. A block is added exactly when a title is present and the form passes the corrected guard; otherwise the form is shown with the current title. A stored title is never replaced, and the corrected decision never raises |
| PageServices.DecideAsWritten | services/page_service.py:79-112 | the handler as written stores the same title as the corrected decision, and raises only on a form that the `isdigit()` guard admits and the `isdecimal()` guard refuses |
| PageServices.DecideCorrection | services/page_service.py:79-112 | the handler as written stores the same title as the corrected one and decides the same in every case but one: a title is present and the guard as written admits a number `int()` refuses. There the handler as written raises, and the corrected one shows the form |
| PageServices.AsWrittenRequestFails | services/page_service.py:81-102 | a POST that stores the title `Site` with position `²` makes the handler as written commit the title and then raise; the corrected one commits the title and shows the form |
| PageServices.PageService.StoreTitle | services/page_service.py:81-86 | the stripped `title` field is upserted under `title` exactly when it is not blank, and becomes the site title; a blank field stores nothing |
| PageServices.PageService.PostResponse | services/page_service.py:79-112 | carries out `Decide` for a POST on the title read before it: the title is stored as `Decide` says, the form is shown with the title `Decide` names, and the block `Decide` adds is inserted unless a number overflows or its slot is taken, which gives a server error after the title is stored |
| PageServices.PageService.SaveBlock | services/page_service.py:102-103 | a position or stored order beyond 64 bits, or a taken slot, escapes as a server error and changes nothing; otherwise exactly the one block row is appended and the answer redirects to `show_page` for the page |
| PageServices.PageService.AddPageResponse | services/page_service.py:67-121 | the params table gains the new title exactly when `Decide` stores one. The menu, comments and footer are read before any write. The pages table changes only by the one block `Decide` adds, and only when its numbers fit 64 bits and its slot is free: that request redirects to `show_page`, an overflowing number or a taken slot gives a server error, and in every other case the form is rendered. A GET changes nothing |

## Left out

- Flask routing, `request`, `render_template`, `redirect`, `url_for` and `jsonify` (controllers/app_controller.py, app.py) are web plumbing. Requests and responses are the values `Request` and `Response`.
- auth.py is left out. Its password check is a foreign call into werkzeug, and the rest is an HTTP 401 wrapper.
- `MediaService._calc_sha256` and `MediaService._norm_filename` are left out. The first streams a file through hashlib and the second calls werkzeug's `secure_filename`. Hashes and file names are opaque strings.
- `unquote` in `MediaService.delete` is left out: `MediaServices.MediaService.Delete` takes the decoded path.
- The file `unlink` in `MediaService.delete` is file-system I/O. `MediaServices.MediaService.Delete` takes its outcome as a parameter: removed, `FileNotFoundError`, or another `OSError`.
- SQLite connections, the DDL text, the `sqlite_master` query and indexes are not modelled. Each class stands for its table.
- The three `init_db` methods of pages, media and comments only create tables. They are the constructors here.
- The `no such table` error that a query raises before `init_db` has run is not modelled. Queries and `SetParam` require the table. Every `HomeModel` constructor in the source runs `init_db` first.
- Timestamps are not modelled. They are integers or strings the caller passes in, and `localtime` and `datetime()` conversions are not modelled either.
- `PageService.add` is left out. It passes four arguments to the five-parameter `PageModel.add`, so every call raises `TypeError`.
- The `upload_media` route is left out. It calls a `media_upload_response` that `PageService` does not define.
- The lines of `detect_locale` after `return 'en'` are unreachable and are left out.
- The pass-through methods are not modelled separately. They are `PageService.get`, `PageService.get_pages_list`, `PageService.delete`, `CommentService.get_all`, all of `HomeService`, and `MediaService.get_by_hash`, `recent` and `insert`. Each returns the model function of the same name unchanged. `PageService.get_comments_and_footer` returns the pair of `get_all` and `get_footer_data`.
- The `print(rows)` in `MediaModel.recent` is console output and is left out.
- The default `locale='en'` of `PageModel.get` is not modelled. `Pages.Get` always takes the locale, and every caller here passes `en`.
- Pages.OrderedByPosition: SQLite does not fix the order of equal positions, and the model breaks such ties in stored order. Under the UNIQUE constraint, equal positions never occur within one page and locale (Pages.OrderedPositionsStrict).
- Media.Recent: SQLite does not fix which of several rows with equal `uploaded_at` are returned at the 25-row cut. The contract states only what holds for every choice. Times are integers, not the text SQLite compares.
- Comments.GetAll: the SELECT has no ORDER BY. The model lists rows in insertion order, and the contract does not depend on that order.
- Text.ParseInt: it reads a decimal string of any length. CPython 3.10.7 and later refuse a string of more than 4300 digits with `ValueError`, and the source needs 3.10 or later for its `str | None` hints. A string that long without leading zeros has a value beyond 64 bits, so `add` fails and the answer is a server error here too, with any new title kept. Only a string padded with leading zeros past 4300 digits differs: the source answers 500, while the model adds the block.
- Text.DecimalValue: only the ASCII, Arabic-Indic, extended Arabic-Indic, Devanagari and fullwidth digit blocks are covered. `int()` also reads the other Unicode decimal-digit blocks, and `isdigit()` also accepts the other Unicode digits. Signs, surrounding spaces and underscores are never reached here, because the guard admits digits only.
- Home.NextIdAfterUpsert: an upsert that updates a row in place is modelled as consuming no AUTOINCREMENT id. Only the uniqueness of ids is relied on, never their values.
- The `int()` casts in `add`, `update_block` and `delete_block_by_id` are not modelled. Ids and positions arrive as integers.
- SQLite computes `COALESCE(MAX(page_order), -1) + 1` as a floating-point value when the maximum is 2^63-1. The model computes it as the integer 2^63, the same value, which `add` cannot bind either.
- AUTOINCREMENT ids are unbounded here. SQLite fails with `SQLITE_FULL` once an id would pass 2^63-1, and that failure is not modelled.
- PageServices.ParseBlockForm: it models the corrected guard. Under the guard as written, a number that `isdigit()` admits and `int()` refuses raises `ValueError`; that case is `PageServices.DecideAsWritten`.
- PageServices.DecideSpec: it states the decision under the corrected guard. The source answers a form that only the guard as written admits with a server error, as `PageServices.DecideCorrection` and `PageServices.AsWrittenRequestFails` state.
- PageServices.PageService.PostResponse: it carries out the corrected `Decide`. The `ValueError` of the handler as written, after a title is stored, is stated only by the function `PageServices.DecideAsWritten`.
- PageServices.PageService.AddPageResponse: it carries out the corrected `Decide`. Where the handler as written raises `ValueError`, this method shows the form (`PageServices.DecideCorrection`).

## Findings

| source | as written | input that shows it | evidently intended | confidence | as-written member | corrected member |
|---|---|---|---|---|---|---|
| services/page_service.py:101-102 | the guard checks `position.isdigit()` and `page_order.isdigit()`, then calls `int(position)` and `int(page_order)` | a POST with no title stored yet, title `Site`, page `home`, content `hello`, page order `1` and position `²` (U+00B2): the title is committed, `isdigit()` holds, then `int('²')` raises `ValueError` and the request fails with status 500 | accept only strings of decimal digits (`isdecimal()`) and re-render the form for any other input | not executed | PageServices.AsWrittenRequestFails | PageServices.DecideCorrection |

`PageServices.BlockGuardAsWritten` is the guard as written, and `PageServices.DecideAsWritten` is the handler's decision as written; `PageServices.AsWrittenGuardAdmitsSuperscript` shows the guard letting `²` through. `PageServices.BlockGuard` is the corrected guard (`PageServices.GuardCorrection`), and `PageServices.ParseBlockForm`, `PageServices.Decide` and the methods of `PageServices.PageService` use it.
