# whattheflip backend core, modelled in Dafny

This project models three parts of the whattheflip backend:

- **Flyer acquisition.** Find a merchant's flyer in the Flipp listing. Discover the flyer's image tiles row by row. Stitch them into one page image. Chain these stages into "flyer id plus PNG bytes".
- **Meal-plan parsing.** Turn the language model's free-text answer into a meal plan (`Day N` to meal) and a shopping list.
- **Flyer-item storage and query.** Store extracted flyer items. Read back the recent items of one store, newest first, at most `limit` of them.

The network and the image library become parameters:

- The Flipp listing is a `ListingResponse` value.
- The tile server for a flyer is a `TileHost`: the finite set of tiles it serves, what reading each tile file's header yields (`decode`), and whether its pixel data loads in full for pasting (`loads`). A truncated file can have a readable header and still fail to paste.
- The PNG encoder is a function parameter.
- The database table is a sequence of rows with integer (microsecond) timestamps. The current time is a parameter.

Modules:

- `Wrappers`: `Option` and `Result`.
- `PyStrings`: the Python string operations the core relies on: `strip` with Python's whitespace set, `lower`, `split('\n')` and `str(int)`.
- `TileGrid`: what discovery finds, as functions of the set of tiles present. Each row is a prefix of columns, and rows are counted up to the first empty one.
- `Layout`: canvas and paste-rectangle arithmetic.
- `FlyerAcquisition`: the locator (a function), discovery, stitching and download (methods with loops, proved against `TileGrid`/`Layout` functions) and the orchestrator.
- `MealPlanParser`: the two regular expressions as matchers, the loop as a method, and the loop's meaning as reference definitions with lemmas.
- `FlyerItemsCrud`: the row mapping and the filter / order / limit query as functions, with the top-k property.

Two things a reader might expect are absent from the code: a three-way tile download outcome (found, not found, transient error) and a cache of stitched images. The model follows the code:

- A tile download has only two outcomes, success or failure. A 404 and any other error are treated alike.
- No code reads or writes the cached-image table. So there is no cache-hit or replacement logic to model.

## Model

| member | source | states |
|---|---|---|
| PyStrings.StripLeft | backend/app/services/gemini_service.py:317 | definition of `lstrip()`: drop leading characters while Python `isspace` holds; pinned down by `StripLeftSpec` |
| PyStrings.StripRight | backend/app/services/gemini_service.py:317 | definition of `rstrip()`: drop trailing characters while Python `isspace` holds; pinned down by `StripRightSpec` |
| PyStrings.Strip | backend/app/services/gemini_service.py:317 | definition of `strip()` as `rstrip` after `lstrip`; pinned down by `StripSpec`, `StripEmptyIff` and `StripIdempotent` |
| PyStrings.StripLeftSpec | backend/app/services/gemini_service.py:317 | `lstrip` drops exactly a leading run of whitespace: the result is a suffix, the dropped part is all whitespace, and the result does not start with whitespace |
| PyStrings.StripRightSpec | backend/app/services/gemini_service.py:317 | `rstrip` drops exactly a trailing run of whitespace |
| PyStrings.StripSpec | backend/app/services/gemini_service.py:317 | `strip` never lengthens a string, and its result neither starts nor ends with whitespace |
| PyStrings.StripEmptyIff | backend/app/services/gemini_service.py:317-319 | a string strips to empty exactly when it is all whitespace, which is when the parser skips the line |
| PyStrings.StripIdempotent | backend/app/services/gemini_service.py:314-317 | stripping twice is stripping once |
| PyStrings.Lower | backend/app/services/flyer_acquisition_service.py:49 | definition of `lower()` as `LowerChar` on each character (ASCII letters only, see Left out); used by `Matches` on both sides of the merchant comparison, exercised by `ScenarioLocateWalmart` |
| PyStrings.SplitLines | backend/app/services/gemini_service.py:314 | `split('\n')` gives at least one piece, and no piece contains a newline |
| PyStrings.JoinSplitLines | backend/app/services/gemini_service.py:314 | joining the pieces with newlines gives back the text, so no character is lost |
| PyStrings.NatToDecimal | backend/app/services/flyer_acquisition_service.py:54 | decimal rendering is non-empty, all digits, with no leading zero |
| PyStrings.DecimalRoundTrip | backend/app/services/flyer_acquisition_service.py:54 | reading the rendered digits back gives the number |
| PyStrings.IntToStr | backend/app/services/flyer_acquisition_service.py:54 | `str(n)` is the canonical decimal spelling: for `n >= 0` digits whose value is `n`, for `n < 0` a `-` followed by digits whose value is `-n`, and no leading zero in either case |
| TileGrid.RunFrom | backend/app/services/flyer_acquisition_service.py:106-131 | the column scan from `x` ends at the first absent column, and all columns before it are present |
| TileGrid.EmptyRowFrom | backend/app/services/flyer_acquisition_service.py:102-139 | the row scan ends at the first row whose column 0 is absent |
| TileGrid.WidestRow | backend/app/services/flyer_acquisition_service.py:115-134 | the width bound is at least every row's length and equals one of them (`max_x_found + 1`) |
| TileGrid.GridTilesAreRowPrefixes | backend/app/services/flyer_acquisition_service.py:106-135 | a tile is recorded exactly when its row is before the first empty row and its column is before its row's first gap, so the recorded set is a union of per-row prefixes; recorded tiles are present |
| TileGrid.GridTilesIncreasing | backend/app/services/flyer_acquisition_service.py:106-135 | tiles are recorded, and so pasted, in strictly increasing row-then-column order, without repeats |
| TileGrid.ProbesIncreasing | backend/app/services/flyer_acquisition_service.py:107-111 | no tile is requested twice; requests go row by row, column by column |
| TileGrid.ProbesCount | backend/app/services/flyer_acquisition_service.py:106-131 | each row scanned costs one failed request on top of its recorded tiles, and that request, for the column just past the row's run, is for an absent tile |
| TileGrid.GridWithinExtents | backend/app/services/flyer_acquisition_service.py:115-155 | every recorded `(x, y)` has `x <= max_x_found` and `y <= max_y_found` |
| TileGrid.StopsAtFirstEmptyRow | backend/app/services/flyer_acquisition_service.py:133-139 | all rows before the row count are non-empty and the row at the count is empty |
| TileGrid.ScenarioOneRowOfTwo | backend/app/services/flyer_acquisition_service.py:102-139 | with tiles (0,0) and (1,0) present: one row, both tiles recorded, width 2, and requests (0,0), (1,0), (2,0), (0,1) |
| TileGrid.ScenarioTwoRows | backend/app/services/flyer_acquisition_service.py:102-139 | with tiles (0,0), (1,0) and (0,1) present: two rows, three tiles, and the last request is (0,2) |
| Layout.CanvasWidth | backend/app/services/flyer_acquisition_service.py:154-156 | definition: `grid_width_tiles * tile_width` with `grid_width_tiles = max_x_found + 1`; used by `CellInsideCanvas` and `StitchedLayout` |
| Layout.CanvasHeight | backend/app/services/flyer_acquisition_service.py:155-157 | definition: `grid_height_tiles * tile_height` with `grid_height_tiles = max_y_found + 1`; used by `CellInsideCanvas` and `StitchedLayout` |
| Layout.Cell | backend/app/services/flyer_acquisition_service.py:165-166 | definition of a tile's cell: left edge `x * tile_width`, top edge `(max_y_found - y) * tile_height`, one tile in size; pinned down by `CellInsideCanvas`, `CellsDisjoint` and `RowZeroAtBottom` |
| Layout.CellInsideCanvas | backend/app/services/flyer_acquisition_service.py:154-166 | the cell of any tile within the extents lies inside the `(max_x+1)*w` by `(max_y+1)*h` canvas |
| Layout.CellsDisjoint | backend/app/services/flyer_acquisition_service.py:165-166 | distinct tiles get non-overlapping cells |
| Layout.RowZeroAtBottom | backend/app/services/flyer_acquisition_service.py:166 | row 0 ends at the canvas bottom, row `max_y` starts at the top, and a higher row number sits higher on the page |
| FlyerAcquisition.Matches | backend/app/services/flyer_acquisition_service.py:47-49 | definition of the match test: the stripped merchant lower-cased equals `merchant_name` lower-cased, and `category` equals one of the stripped categories exactly; exercised by `ScenarioLocateWalmart` |
| FlyerAcquisition.IdTruthy | backend/app/services/flyer_acquisition_service.py:52 | definition of Python truthiness for the `id` value: absent/`None`, `0` and `""` are false; used by `Eligible` and `Located` |
| FlyerAcquisition.PathTruthy | backend/app/services/flyer_acquisition_service.py:52 | definition of Python truthiness for the `path` value: absent/`None` and `""` are false; used by `Eligible` and `Located` |
| FlyerAcquisition.Eligible | backend/app/services/flyer_acquisition_service.py:49-52 | definition: a flyer that matches and has a truthy id and path; `FirstEligible` is proved to return the first such flyer |
| FlyerAcquisition.IdText | backend/app/services/flyer_acquisition_service.py:54 | definition of `str(flyer_id)` for an integer or string id; pinned down by `IntToStr` and `Located` |
| FlyerAcquisition.FirstEligible | backend/app/services/flyer_acquisition_service.py:45-57 | the scan's stop index is the first flyer that matches and has a truthy id and path; every earlier flyer does not qualify, so matching flyers missing an id or path are passed over |
| FlyerAcquisition.Located | backend/app/services/flyer_acquisition_service.py:50-54 | the located id text and path are non-empty |
| FlyerAcquisition.FindFlyerPathFromFlipp | backend/app/services/flyer_acquisition_service.py:26-59 | None exactly when the listing cannot be fetched or decoded, or no flyer qualifies (an empty listing included); otherwise the `str` of the id and the path of the first qualifying flyer in listing order |
| FlyerAcquisition.ScenarioLocateWalmart | backend/app/services/flyer_acquisition_service.py:45-54 | the merchant is compared ignoring case and the category exactly, and a numeric id 42 is returned as "42" |
| FlyerAcquisition.DiscoverTiles | backend/app/services/flyer_acquisition_service.py:92-148 | a missing or unreadable first tile gives None after exactly one request. Otherwise: the recorded tiles are the per-row prefixes up to the first empty row; `max_y` is the last non-empty row and `max_x` the widest row's last column; the size is the first tile's; the requests are exactly those scans. The `y > 15` safety branch is unreachable (an `assert false` there verifies) |
| FlyerAcquisition.StitchTiles | backend/app/services/flyer_acquisition_service.py:150-172 | None exactly when nothing was recorded or the size is not positive. Otherwise the canvas is `(max_x+1)*w` by `(max_y+1)*h` and the pastes are those of every recorded tile that opens and pastes (`pasteOpen`), in order, at `(x*w, (max_y-y)*h)` |
| FlyerAcquisition.DownloadAndStitchFlyerImage | backend/app/services/flyer_acquisition_service.py:81-172 | an empty path gives None with no request, and a missing first tile gives None after at most one request. The image and request list are those the discovery and layout functions predict; the first tile's size comes from its header (`decode`), each paste needs header and pixel data (`PasteOpen`) |
| FlyerAcquisition.PasteArea | backend/app/services/flyer_acquisition_service.py:164-166 | definition of one paste's rectangle: corner `(x * tile_width, (max_y_found - y) * tile_height)`, the opened tile's own size; tied to `Cell` by `PlacementInCanvas` |
| FlyerAcquisition.PasteOpen | backend/app/services/flyer_acquisition_service.py:162-169 | definition of the paste-time open: the tile's size when its header reads and its pixel data loads, else None (the `except` branch); used by `ExpectedImage` |
| FlyerAcquisition.Pastes | backend/app/services/flyer_acquisition_service.py:162-169 | definition of the paste loop over the recorded tiles, skipping a tile that fails to open; `StitchTiles` is proved to compute it and `PastesFacts` pins it down |
| FlyerAcquisition.ExpectedImage | backend/app/services/flyer_acquisition_service.py:81-172 | definition of the whole download-and-stitch result from the tile host; `DownloadAndStitchFlyerImage` is proved to compute it and `StitchedLayout` states its geometry |
| FlyerAcquisition.ExpectedProbes | backend/app/services/flyer_acquisition_service.py:92-139 | definition of the request sequence: nothing for an empty path, only `(0,0)` when that tile is missing or unreadable, else the row scan up to the first empty row; `DownloadAndStitchFlyerImage` is proved to make exactly these requests and `ProbesIncreasing`/`StopsAtFirstEmptyRow` pin them down |
| FlyerAcquisition.PastesFacts | backend/app/services/flyer_acquisition_service.py:162-169 | every paste is of a recorded tile that opens, at that tile's position; every recorded tile that opens is pasted (failures are skipped and do not stop the loop); pastes follow recording order |
| FlyerAcquisition.StitchedLayout | backend/app/services/flyer_acquisition_service.py:154-169 | for a stitched page: canvas size; each paste at its cell's corner; each cell inside the canvas; cells pairwise disjoint; row 0 at the bottom edge; exactly the grid tiles whose header reads and whose pixel data loads are pasted, so a truncated first tile leaves its cell white; tiles of the first tile's size fill exactly their cell |
| FlyerAcquisition.PlacementInCanvas | backend/app/services/flyer_acquisition_service.py:164-166 | one paste of a discovered tile starts at its cell's corner `(x*w, (max_y-y)*h)`, the cell lies inside the canvas, a tile of the first tile's size fills the cell, and a row-0 cell ends on the bottom edge |
| FlyerAcquisition.GetFlyerImageDataAndId | backend/app/services/flyer_acquisition_service.py:174-197 | None when the locator finds nothing, the stitching fails or PNG encoding fails. Otherwise the locator's id unchanged, with the encoded stitched image |
| MealPlanParser.HasShoppingListHeader | backend/app/services/gemini_service.py:306 | definition of `SHOPPING_LIST_HEADER_PATTERN.search(line)` as a scan over start positions; pinned down by `HeaderSearchIff` |
| MealPlanParser.HeaderFromIff | backend/app/services/gemini_service.py:306-322 | the position-by-position search from `i` finds the header exactly when it occurs at some position `>= i` |
| MealPlanParser.HeaderSearchIff | backend/app/services/gemini_service.py:306-322 | `search` finds `Shopping List:` (ignoring case) exactly when it occurs anywhere in the line |
| MealPlanParser.SkipSpaces | backend/app/services/gemini_service.py:305 | `\s+` / `\s*` consume exactly the maximal run of whitespace |
| MealPlanParser.SkipDigits | backend/app/services/gemini_service.py:305 | `\d+` consumes exactly the maximal run of digits |
| MealPlanParser.UpToNewline | backend/app/services/gemini_service.py:305 | `(.*)` takes exactly the prefix before the first newline: the result is a prefix of the input, has no newline, and is followed by a newline unless it is the whole input |
| MealPlanParser.MealText | backend/app/services/gemini_service.py:336 | definition of group 2 followed by `.strip()`: skip `\s*`, take up to the first newline, strip; pinned down by `MealTextOfLine` |
| MealPlanParser.MatchDay | backend/app/services/gemini_service.py:305 | definition of `MEAL_PLAN_DAY_PATTERN.match(line)`, anchored at the line start, ignoring case; pinned down by `MatchDayIff` |
| MealPlanParser.MatchDayIff | backend/app/services/gemini_service.py:333-336 | a line matches exactly when it starts with `Day` (any case), whitespace, digits, `:`; the captures are the digit string as written and the text after the colon |
| MealPlanParser.MealTextOfLine | backend/app/services/gemini_service.py:336 | on a single line, the meal text is the text after the colon, stripped |
| MealPlanParser.Put | backend/app/services/gemini_service.py:337 | definition of `meal_plan[key] = meal` on an insertion-ordered dict: an existing key is overwritten in place, a new key goes last; pinned down by `PutSpec` and `KeysOfPut` |
| MealPlanParser.PutSpec | backend/app/services/gemini_service.py:337 | `meal_plan[key] = meal`: the key maps to the meal, other keys keep their values, keys stay unique, and the dict grows only for a new key |
| MealPlanParser.LookupAbsent | backend/app/services/gemini_service.py:337 | a key never inserted has no value |
| MealPlanParser.KeysOfPut | backend/app/services/gemini_service.py:337 | an assignment adds no key but its own |
| MealPlanParser.Step | backend/app/services/gemini_service.py:316-337 | definition of one loop iteration: strip, skip a blank line, switch mode on a header line, append a bullet item in shopping-list mode, record a day line otherwise; pinned down by `StepBlank`, `StepHeader`, `RunBeforeHeader` and `RunInShoppingList` |
| MealPlanParser.Run | backend/app/services/gemini_service.py:316 | definition of the `for` loop as a left fold of `Step` over the lines; `ParseMealPlanResponse` keeps its state equal to `Run` on the lines read so far |
| MealPlanParser.FirstHeader | backend/app/services/gemini_service.py:322-324 | the first line containing the header: no earlier line contains it |
| MealPlanParser.Bullets | backend/app/services/gemini_service.py:326-329 | the shopping list holds at most one item per line |
| MealPlanParser.StepBlank | backend/app/services/gemini_service.py:317-319 | a line that strips to empty changes nothing |
| MealPlanParser.StepHeader | backend/app/services/gemini_service.py:322-324 | a header line switches to shopping-list mode and adds nothing to either output |
| MealPlanParser.RunBeforeHeader | backend/app/services/gemini_service.py:331-337 | before any header, only day lines contribute, to the meal plan, and the shopping list stays empty |
| MealPlanParser.RunInShoppingList | backend/app/services/gemini_service.py:326-329 | once in shopping-list mode the mode never switches back, and only `-`/`*` lines add their stripped text after the first character, in input order |
| MealPlanParser.SplitAtHeader | backend/app/services/gemini_service.py:316-337 | lines before a first header give the meal plan, lines after it give the shopping list |
| MealPlanParser.HeaderLineAt | backend/app/services/gemini_service.py:316-337 | the same split, stated for the first header at index `h` |
| MealPlanParser.NoHeaderLine | backend/app/services/gemini_service.py:316-337 | with no header line, the result is the meal plan of all lines and an empty shopping list |
| MealPlanParser.ParseSplitsAtFirstHeader | backend/app/services/gemini_service.py:316-337 | the loop's result is the meal plan of the day lines before the first header and the items of the bullet lines after it. Day lines after the header and bullet lines before it are ignored |
| MealPlanParser.ShoppingModeIffHeader | backend/app/services/gemini_service.py:312-324 | the loop ends in shopping-list mode exactly when some line contains the header |
| MealPlanParser.BlankLinesIgnored | backend/app/services/gemini_service.py:317-319 | removing every blank line leaves the result unchanged |
| MealPlanParser.DayEntriesUnique | backend/app/services/gemini_service.py:337 | the meal plan has one entry per key |
| MealPlanParser.LastDayLineWins | backend/app/services/gemini_service.py:335-337 | the entry for `"Day " + digits` holds the meal of the last day line with that digit string |
| MealPlanParser.ParseMealPlanResponse | backend/app/services/gemini_service.py:308-340 | the loop returns the meal plan of the day lines before the first header and the shopping list of the bullet items after it, with unique keys and at most one item per line |
| FlyerItemsCrud.RowOf | backend/app/db/crud.py:11-20 | definition of the row built from one item: the eight fields copied, id and timestamps left to the database; pinned down by `ItemRowRoundTrip` and `CreateFlyerItems` |
| FlyerItemsCrud.ItemOf | backend/app/routers/flyer.py:88 | definition of validating a stored row as a `FlyerItem` for the response: fails on a unit outside the twelve; pinned down by `ItemRowRoundTrip` |
| FlyerItemsCrud.UnitNameRoundTrip | backend/app/models/flyer.py:7 | each of the twelve selling units is read back from its column spelling |
| FlyerItemsCrud.ItemRowRoundTrip | backend/app/db/crud.py:10-22 | storing an item and converting the row back gives the item unchanged |
| FlyerItemsCrud.CreateFlyerItems | backend/app/db/crud.py:8-29 | one row per item, in input order; each row reads back as its item (all eight fields copied); id and timestamps are left to the database |
| FlyerItemsCrud.Threshold | backend/app/db/crud.py:36 | definition of `utcnow() - timedelta(days=days_limit)` in microseconds, with `now` a parameter; used by `GetFlyerItemsByStoreSpec` |
| FlyerItemsCrud.Qualifies | backend/app/db/crud.py:39-40 | definition of the two filters: the store is equal exactly, and `extracted_at` is known (not NULL) and at or after the threshold; `Candidates` is proved to keep exactly these rows |
| FlyerItemsCrud.Candidates | backend/app/db/crud.py:39-40 | the filtered rows are exactly the table's rows of that store (exact comparison) with a known extraction time at or after the threshold; each qualifying row occurs exactly as often as in the table, every other row not at all |
| FlyerItemsCrud.Insert | backend/app/db/crud.py:41 | inserting adds exactly the one row |
| FlyerItemsCrud.InsertKeepsOrder | backend/app/db/crud.py:41 | inserting into a newest-first sequence keeps it newest first |
| FlyerItemsCrud.SortNewestFirst | backend/app/db/crud.py:41 | ordering is a permutation of the filtered rows |
| FlyerItemsCrud.SortIsNewestFirst | backend/app/db/crud.py:41 | the ordered rows are in non-increasing `extracted_at` order |
| FlyerItemsCrud.GetFlyerItemsByStore | backend/app/db/crud.py:31-43 | the query fails exactly when `limit` is negative |
| FlyerItemsCrud.GetFlyerItemsByStoreDefaults | backend/app/db/crud.py:31 | with the default `limit=100` and `days_limit=7` that both routers use, the query returns at most 100 rows, all of the store and extracted in the last 7 days, newest first |
| FlyerItemsCrud.GetFlyerItemsByStoreSpec | backend/app/db/crud.py:31-43 | every returned row has the store and is no older than `now - days_limit` days; rows are newest first; there are `min(limit, qualifying)` of them, drawn from the qualifying rows without repetition; any qualifying row left out is no newer than any returned row |
| FlyerItemsCrud.NewestPrefix | backend/app/db/crud.py:41-42 | the first `limit` rows of a newest-first order are newest first, and every later row is no newer than them |
| FlyerItemsCrud.DrawnFrom | backend/app/db/crud.py:39-42 | a limited selection of qualifying rows contains only qualifying rows |

## Left out

- HTTP and JSON:
  - the listing URL, postal code, SID, headers and timeouts are not modelled;
  - the listing is modelled as already fetched and decoded, or unavailable;
  - the tile URL (`zoom_x_y.jpg` under the flyer path) is not modelled; the orchestrator picks the tile host by flyer path and zoom level.
- Tile download outcomes: `_download_single_tile` gives one boolean. A 404, another HTTP error and a file-write error are all "not present".
- Termination of the two `while True` loops: it relies on the server eventually failing a request. The model takes the set of present tiles to be finite, and that is what the `decreases` clauses use.
- `time.sleep`, the temporary directory, tile files on disk, and logging are not modelled.
- Pixels are not modelled. The white canvas, `paste` and PNG encoding are geometry plus an opaque encoder parameter. The image is closed in `finally`; that is not modelled.
- The listing's JSON values:
  - a `merchant` or `categories` that is present but `null` makes the source raise; the model has no such value;
  - ids other than integers and strings (floats, booleans) are not modelled.
- `PyStrings.LowerChar`: maps ASCII letters only. Python's `lower()` also lower-cases other scripts. This only affects merchant names outside ASCII.
- `MealPlanParser.SkipDigits`: `\d` is ASCII digits here. Python's `\d` also accepts other Unicode decimal digits.
- Case-insensitive matching covers ASCII letters plus the extra equivalents Python's regex engine has for `s` and `i` (long s, dotless i, dotted capital I).
- The rest of the Gemini service is not part of this model:
  - the model calls and configuration;
  - prompts and schemas;
  - PDF rendering and MIME detection;
  - the `price:.2f` formatting.
- The dict-returning wrapper of `parse_meal_plan_response` is not modelled; the method returns the two values.
- FastAPI routers, Pydantic validation, SQLAlchemy sessions, `add_all`/`commit` and the migrations are not modelled. `FlyerItemsCrud.ItemOf` models validating a stored row back into a `FlyerItem`, as the items endpoint's `response_model` (backend/app/routers/flyer.py:88) does; it serves as the partner of row creation.
- Prices and quantities are `real`. Binary floating point is not modelled; the values are only copied.
- `datetime.utcnow()` is the parameter `now`, in microseconds. Overflow of `timedelta` or `datetime` for huge `days_limit` values is not modelled.
- Time zones: the naive-vs-aware timestamp comparison is not modelled.
- `FlyerItemsCrud.GetFlyerItemsByStore`: the database's order among rows with equal `extracted_at` is not fixed. The model sorts stably, and its specification (`GetFlyerItemsByStoreSpec`) allows any order among ties.
- The cached flyer images table: no code reads or writes it.
- Default arguments of the acquisition functions (category `"Groceries"`, zoom level 4) are not modelled: the category and zoom level are always passed, and the zoom level only selects the tile host.
