# Moscow metro map viewer: the deterministic core in Dafny

The viewer in `sketch.js` is a p5.js page. It draws the Moscow metro over OpenStreetMap tiles. Around its
projection and drawing code sit four pieces of deterministic logic, and this project models them:

- **The data builder `processData`** (module `MetroData`). It works in four steps:
  - It sorts the Overpass elements into route relations, a dictionary of nodes and ways.
  - It gives every stop node a list of the lines serving it, with no ref listed twice.
  - It makes one station per usable node, skipping any name it has already seen. Missing English names
    are filled by `transliterate` (module `Translit`). It sorts each station's lines with numeric refs
    first, and then sorts the stations by name.
  - It keeps the ways that have at least two points as line geometries.

  Each loop of the source is a method with loop invariants, proved equal to a function. Separate lemmas
  prove what the result means.
- **Tile addressing and the tile cache** (module `Tiles`).
  - `getTileUrl` picks a mirror and formats the URL.
  - `loadTile` is a class over the `tileCache` dictionary, with a ghost log of the loads it issues. The
    failure callback is a separate method that stores `null`.
  - The nested request loop of `drawTiles` is modelled too.
- **The hover hit test** of `drawStations` and **the view state** (module `View`):
  - the wheel zoom step and its clamp;
  - the drag flag set by the mouse handlers.

Modules `Strings`, `Seqs` and `Wrappers` hold what the core relies on:
- `||` on strings;
- `localeCompare`, as code-point order;
- decimal formatting of integers;
- `Array.prototype.sort`;
- `Seqs.Filter`, which stands for the loops that push the elements passing a test, in order
  (sketch.js:197-205 and 261-268).

A failed tile is loaded again. The failure callback stores `null` under the tile's key, and the guard
`if (tileCache[key])` reads `null` as missing, so the next frame issues a new load
(`Tiles.RequestAfterFailure`). The mirror is chosen by `Math.abs(x + y) % 3`, so negative tile
coordinates still pick one of the three mirrors (`Tiles.ServerIndex`).

## Model

The functions that define the model, which the rows below are about:
- `Translit.TableEntry` is the table at sketch.js:2-13.
- `Translit.TranslitChar` and `Translit.Transliterate` are `transliterate` at sketch.js:15-17.
- `Tiles.TileKey` is the key at sketch.js:99, and `Tiles.TileUrl` is `getTileUrl` at sketch.js:92-96.
- `Tiles.NewLoads` describes what a run of `loadTile` calls (sketch.js:98-108) within one rectangle did. Its clauses are `LoadsSound` (each new load is for an address that gained an image), `LoadsDistinct` (no URL repeats) and `LoadsComplete` (every address that gained an image was loaded).
- `MetroData.NumericRef` and `MetroData.LineLe` are the line comparator at sketch.js:243-246.
- `Strings.LexLe` is the `localeCompare` order used at sketch.js:246 and 256.
- `MetroData.Kept` is the third loop at sketch.js:229-254 before the sort.
- `MetroData.LineInfo` and `MetroData.Contributions` are the second loop at sketch.js:208-223.

| member | source | states |
|---|---|---|
| `Translit.TableKeysCyrillic` | sketch.js:2-13 | every key of the table is a Cyrillic letter, between Ё and ё |
| `Translit.TableValuesLatin` | sketch.js:2-13 | every value of the table is made of Latin letters only |
| `Translit.TranslitCharOutputFixed` | sketch.js:16 | each character that `TRANSLIT_MAP[c] \|\| c` produces is one that the mapping leaves unchanged |
| `Translit.SignsAreKept` | sketch.js:7-16 | Ъ, Ь, ъ and ь map to the falsy `''`, so `\|\| c` keeps them as they are |
| `Translit.TransliterateAppend` | sketch.js:15-17 | the character-wise mapping distributes over concatenation |
| `Translit.TransliterateFixed` | sketch.js:15-17 | a text whose characters are all left unchanged (no entry, or a falsy one) is returned unchanged |
| `Translit.TransliterateOutputFixed` | sketch.js:15-17 | every character of a transliterated text is left unchanged by another pass |
| `Translit.TransliterateIdempotent` | sketch.js:15-17 | transliterating twice equals transliterating once |
| `Tiles.ServerIndex` | sketch.js:93-94 | `Math.abs(x + y) % 3` is a valid index into `['a', 'b', 'c']` for every sign of x and y |
| `Tiles.TileUrl` | sketch.js:92-96 | the URL starts with `https://`, then the mirror letter chosen by ServerIndex, and ends with `.png` |
| `Tiles.TileKeyInjective` | sketch.js:99 | distinct addresses (x, y, z), negative ones included, have distinct keys `z/x/y` |
| `Tiles.TileUrlInjective` | sketch.js:92-96 | distinct addresses are fetched from distinct URLs |
| `Tiles.NeighboursUseDifferentServers` | sketch.js:94 | horizontally or vertically adjacent tiles use different mirrors |
| `Tiles.UrlsMatchAtAddress` | sketch.js:99-107 | in a valid cache, the image under an address's key was loaded from that address's URL |
| `Tiles.TileCache.constructor` | sketch.js:25 | the cache starts empty, with no load issued |
| `Tiles.TileCache.IssueLoad` | sketch.js:102-105 | `loadImage` returns a new image at once and adds exactly its URL to the load log |
| `Tiles.TileCache.LoadTile` | sketch.js:98-108 | a truthy entry is returned with no load issued and the cache unchanged; otherwise exactly one load of `getTileUrl(x, y, z)` is issued and stored under `z/x/y`; entries holding an image are never lost and a valid cache stays valid |
| `Tiles.TileCache.LoadFailed` | sketch.js:104 | the failure callback overwrites the entry with `null` and changes nothing else |
| `Tiles.RequestTwice` | sketch.js:98-108 | two requests in a row return the same image and issue at most one load |
| `Tiles.RequestAfterFailure` | sketch.js:98-108 | after the failure callback has stored `null`, the next request issues a new load of the same URL and returns a new image |
| `Tiles.RequestColumn` | sketch.js:284-285 | one column of the loop: every address of the column then holds an image; images already held are kept; only keys of the rectangle change; the new loads are exactly the URLs of the addresses that gained an image, each once, so every address of the column that held no image is loaded |
| `Tiles.RequestStep` | sketch.js:284-285 | one `loadTile` call keeps the column loop's invariant: the column is held up to the current row and the new loads stay exactly those of the addresses that gained an image |
| `Tiles.RequestVisibleTiles` | sketch.js:283-285 | every address in [minX-1, maxX+1] x [minY-1, maxY+1] then holds an image; images already held are kept; only keys of that rectangle change; the new loads are exactly the URLs of the rectangle's addresses that gained an image, with none repeated; every address that held no image is loaded |
| `Tiles.AllColumnsRequested` | sketch.js:283-285 | once the loop has passed the last column, the whole rectangle is held, the dictionary changed only inside it, and every address that held no image was loaded |
| `Tiles.FirstFrame` | sketch.js:283-285 | the first frame over the empty dictionary loads the URL of every address of the view, and no other URL |
| `Tiles.LoadStep` | sketch.js:98-108 | one `loadTile` call for an address of the rectangle changes only that key, and loads its URL exactly when its entry held no image |
| `Tiles.LoadStepComplete` | sketch.js:99-103 | storing a new image under an address's key leaves that address's URL as the only new load, which covers every address that gained an image |
| `Tiles.LoadsSoundTransitive` | sketch.js:283-285 | over two runs of requests, every load is for an address that held no image at the start and holds one at the end |
| `Tiles.LoadsDistinctTransitive` | sketch.js:283-285 | an address loaded in the second run held no image after the first, so no URL repeats across the two runs |
| `Tiles.LoadsCompleteTransitive` | sketch.js:283-285 | an address that gained an image over two runs gained it in one of them, and its URL is among that run's loads |
| `Tiles.NewLoadsTransitive` | sketch.js:283-285 | two runs of requests compose: the loads of both runs are exactly the URLs of the addresses that gained an image over both, each once |
| `Tiles.MissingLoaded` | sketch.js:100-102 | when every address of the rectangle holds an image at the end, each one that held none at the start was loaded |
| `Tiles.LoadsInRect` | sketch.js:283-285 | every new load is the URL of an address of the rectangle |
| `Tiles.NothingNewWhenAllHeld` | sketch.js:100 | when every address of the rectangle already holds an image, requests confined to it issue no load and leave the cache unchanged |
| `Tiles.RedrawCachedView` | sketch.js:283-285 | a frame over a view whose tiles are all held issues no load and changes no entry |
| `Tiles.RedrawSameView` | sketch.js:283-285 | two frames over the same view have exactly the effect of one: the view is held, held images are kept, only keys of the rectangle change, and the loads are exactly the URLs of the addresses that gained an image, each once (a frame over a held view loads nothing, as `Tiles.RedrawCachedView` states) |
| `MetroData.Classify` | sketch.js:193-205 | the first loop puts the relations and the ways in input order, and keeps one node per id, in the order ids were first seen |
| `MetroData.NodeIdsAreTableKeys` | sketch.js:194-201 | the insertion-order list of node ids holds exactly the keys of `nodes` |
| `MetroData.NodeIdsDistinct` | sketch.js:201 | each id appears once in the key order of `nodes` |
| `MetroData.NodeTableKeys` | sketch.js:200-201 | `nodes` has an id as a key exactly when some node element has that id |
| `MetroData.NodeTableKeepsLast` | sketch.js:200-201 | a later node with the same id overwrites an earlier one: the entry for an id is the last node element with that id |
| `MetroData.RouteLine` | sketch.js:210-212 | a route's ref is its `ref` tag, or `'?'` when that is missing or empty; its colour is its `colour` tag or `#888888`; both are non-empty |
| `MetroData.MemberContribsExact` | sketch.js:214-216 | a route adds its line to exactly the node members whose role, `''` when missing, is one of the four stop roles |
| `MetroData.ContributionsComplete` | sketch.js:209-222 | every qualifying member of every route contributes its line to its node |
| `MetroData.ContributionsSound` | sketch.js:209-222 | every contribution comes from a qualifying member of some route |
| `MetroData.ContributionsExact` | sketch.js:209-222 | the contributions are exactly those of the qualifying members of the routes |
| `MetroData.LineInfoDistinctRefs` | sketch.js:217-220 | no node's line list holds two entries with the same ref |
| `MetroData.LineInfoExact` | sketch.js:208-223 | a node has a line list exactly when some contribution names it; the list has a ref exactly when some contribution to the node has that ref; the entry kept is the first contribution with that ref |
| `MetroData.LineInfoNonEmptyFields` | sketch.js:210-220 | every listed line has a non-empty ref and a non-empty colour |
| `MetroData.AddRouteLines` | sketch.js:214-222 | the inner loop over one route's members extends the line lists exactly as that route's contributions do |
| `MetroData.BuildLineInfo` | sketch.js:208-223 | the second loop builds the line lists of all routes' contributions in order |
| `MetroData.EntriesOrder` | sketch.js:229 | `Object.entries(nodes)` visits a reordering of the insertion-order ids, each id as often |
| `MetroData.EntriesOrderShape` | sketch.js:229 | `Object.entries` lists the array-index ids first, in ascending order, then the other ids in insertion order |
| `MetroData.StationOrder` | sketch.js:229 | every id the third loop visits is a key of `nodes` |
| `MetroData.LineLeIsTotalOrder` | sketch.js:242-247 | the line comparator is a total preorder, and it ties two lines only when their refs are equal |
| `MetroData.SortLinesOrdered` | sketch.js:241-247 | a station's lines are reordered, not changed; numeric-first refs come before the others; within each group refs strictly ascend |
| `MetroData.SortLinesUnique` | sketch.js:242-247 | any arrangement sorted by the comparator is the model's sorted list, so the algorithm of `Array.prototype.sort` does not matter |
| `MetroData.StationFor` | sketch.js:230-253 | a usable node gives a station with a non-empty name, a non-empty English name, non-zero coordinates and one colour per line |
| `MetroData.StationFields` | sketch.js:230-253 | the name falls back from `name` to `name:ru`; `nameEn` falls back to the transliterated name; lines are sorted; `line` joins their refs with `", "`; `color` is the first line's colour or `#888888` |
| `MetroData.KeptNamesDistinct` | sketch.js:226-237 | the seen-name test leaves no two stations with the same name |
| `MetroData.KeptNamesAreUsableNames` | sketch.js:229-237 | the names of the kept stations are those of the usable nodes visited |
| `MetroData.UsableNamesExact` | sketch.js:230-236 | a name is a usable node's name exactly when some visited node has that name, a truthy lat and a truthy lon (0 is falsy) |
| `MetroData.KeptNames` | sketch.js:229-237 | a name has a station exactly when some usable node carries it |
| `MetroData.KeptFromFirst` | sketch.js:229-254 | the station of a name is built from the first usable node with that name, in visiting order |
| `MetroData.SortStationsOrdered` | sketch.js:256 | stations with distinct names sort into strictly ascending name order, as a permutation, and into the only such order |
| `MetroData.BuildStations` | sketch.js:226-256 | the third loop, with its `seenNames` set, yields the kept stations sorted by name |
| `MetroData.BuildLineGeometries` | sketch.js:260-268 | the fourth loop keeps the ways with at least two points, in order, with the way's colour or `#888888` |
| `MetroData.GeometriesExact` | sketch.js:260-268 | the geometries are those of exactly the ways with two or more points, in input order, each with its points copied and a non-empty colour |
| `MetroData.ProcessData` | sketch.js:192-269 | the whole builder yields those stations and geometries, and the station names strictly ascend |
| `MetroData.StationsAscending` | sketch.js:256 | the final list is a permutation of the kept stations with strictly ascending, hence unique, names |
| `MetroData.StationsFromFirstNodes` | sketch.js:229-256 | every final station comes from the first usable node with its name; its lines carry no repeated ref; its colour is the first line colour or `#888888` |
| `MetroData.KeptStationFromFirstNode` | sketch.js:229-254 | the same, for the stations before the final sort |
| `MetroData.LinesOfLineInfo` | sketch.js:241 | `lineInfo[nodeId] \|\| []` has distinct refs and non-empty colours for every node |
| `Seqs.SortedPermutationsEqual` | sketch.js:242-256 | two sorted permutations of data that the comparator never ties are equal |
| `Seqs.FilterIsOrderedSelection` | sketch.js:261-266 | a filter keeps exactly the elements satisfying its test, at increasing positions |
| `View.FirstNear` | sketch.js:311-318 | the scan's result, when present, is an index of a station |
| `View.FirstNearIsFirst` | sketch.js:311-318 | nothing is hovered exactly when no station is within 15 px; otherwise the hovered index is the first one within 15 px |
| `View.FirstIsNotNearest` | sketch.js:311-318 | a station 14 px away that comes first wins over one right under the mouse |
| `View.ViewState.FindHovered` | sketch.js:311-318 | the loop with `break` sets `hoveredStation` to the first station in range, or `null` |
| `View.Constrain` | sketch.js:405 | p5's `constrain` returns a value within the bounds, equal to the input when it is already within them |
| `View.WheelZoom` | sketch.js:405 | the zoom after a wheel event lies in [9, 17]; it is zoom - 0.3 when `delta > 0` and zoom + 0.3 otherwise, clamped |
| `View.WheelZoomMonotone` | sketch.js:405 | from a zoom in [9, 17], one event moves the zoom by at most one step in its direction, and it stays put only at the bound |
| `View.ViewState.constructor` | sketch.js:29-35 | the view starts centred on 55.7558, 37.6173 at zoom 11, with no drag and nothing hovered |
| `View.ViewState.MousePressed` | sketch.js:374-380 | a press starts a drag anchored at the mouse and the current centre, moving nothing |
| `View.ViewState.MouseReleased` | sketch.js:382-384 | a release ends the drag |
| `View.ViewState.MouseDragged` | sketch.js:386-400 | with no drag it moves nothing; during a drag the centre is the pan from the anchors, its latitude clamped to ±85 |
| `View.ViewState.MouseWheel` | sketch.js:402-421 | the zoom takes the clamped step; the new centre has its latitude clamped to ±85 |
| `View.ReleaseStopsDrag` | sketch.js:382-387 | a drag after a release leaves the centre where it was |
| `View.PressThenDrag` | sketch.js:374-399 | a drag right after a press, at the same mouse position, pans by a zero offset from the press's centre |

## Left out

- The Web Mercator functions and the re-centring arithmetic (sketch.js:39-88, 389-399, 403-418) use `Math.log`, `Math.tan`, `Math.exp` and `atan` on floating point. `latLonToPixel` enters the hover test as the given screen positions of the stations. The pan of `mouseDragged` and the re-centring of `mouseWheel` enter as function parameters.
- View.ViewState.MouseDragged: the contract does not state where the pan moves the centre. That computation is a parameter; the latitude clamp and the gating are modelled.
- View.ViewState.MouseWheel: the contract does not state that the point under the mouse stays in place. That is projection arithmetic, given as a parameter.
- Drawing is not modelled: `drawLines`, the circles and labels of `drawStations`, and `image()`, `displaySize` and the `tile.width > 0` test of `drawTiles`. They are rendering calls.
- The projection of the viewport corners to the integer tile bounds of `drawTiles` (sketch.js:274-281) is floating point. The bounds and the integer zoom are inputs of `Tiles.RequestVisibleTiles`.
- `setup`, `windowResized`, `updateInfoPanel`, the data loading and fetching functions, `refetchData` and the station-count text are DOM updates and network I/O.
- `saveCSV` is file and DOM I/O, and it formats floats with JavaScript's number-to-string.
- `resetView` is not modelled. It sets the same three constants as the initial state.
- `loadImage` internals and the timing of its callbacks are not modelled. A load is an `IssueLoad` step that returns an image at once. The success callback does nothing.
- Tiles.TileCache.LoadFailed: requires the key to be in the cache. The callback can run only after `loadTile` has stored the entry.
- Touch handling, pinch zoom and tap detection are not modelled.
- Zoom arithmetic uses exact reals. Floating-point rounding of repeated 0.3 steps is not modelled.
- NaN coordinates are not modelled. A coordinate is absent, zero or a non-zero real.
- `localeCompare` is modelled as code-point lexicographic order. The locale's collation is not modelled.
- Node ids are integers and keys are their decimal form. JavaScript's formatting of non-integer or very large ids is not modelled.
- Tag values are strings. Non-string values in the JSON are not modelled.
- Geometry points carry only lat and lon. So the copy `{lat: pt.lat, lon: pt.lon}` is the point itself.
- The drag anchors start at 0 rather than `undefined`. `mouseDragged` reads them only after a press has set them, because a drag needs `isDragging`.
- The inner loop of the tile request code is its own method, `Tiles.RequestColumn`. The addresses are visited in the same order.
- The `nodes` dictionary is a map plus the list of its keys in insertion order. `Object.entries` is `MetroData.EntriesOrder` applied to that list.
