# ngore extraction engine in Dafny

A model of the HTML extraction engine of `ngore`, a Go client for the nCore
torrent tracker. The engine takes an already-parsed markup tree and turns the
tracker's pages into plain records:

- a query layer (`parse/selector.go`) that finds nodes by tag, class or id,
  either the first match in depth-first pre-order or all of them, and reads a
  node's normalised text and its attributes;
- the search-listing extractor (`search/search.go`): one `Torrent` per
  `box_torrent` container, with the id pulled out of an href by the pattern
  `.*id=(\d*)`;
- the detail-page extractor (`details/details.go`): a lower-cased type label
  picks one of four field sets, read from a two-column label/value table, from
  image sources and from an external link matched by `.*\?(http.*)`;
- the activity extractor (`activity/activity.go`): an all-or-nothing,
  positional nine-cell rank/quota summary and the per-torrent history.

Every field degrades to `""` (or an empty list) when the element it comes from
is missing; nothing here fails.

Modules, one per Go file plus three supporting ones:

| file | module | models |
|---|---|---|
| `wrappers.dfy` | `Wrappers` | `Option`, standing for a Go pointer that may be nil |
| `strings.dfy` | `Strings` | Go's `strings.TrimSpace` and `strings.ToLower`, and the two regular expressions written as string functions |
| `html.dfy` | `Html` | the parsed tree as an immutable value, and its pre-order listing |
| `selector.dfy` | `Selector` | `parse/selector.go` |
| `search.dfy` | `Search` | `search/search.go` |
| `details.dfy` | `Details` | `details/details.go` |
| `activity.dfy` | `Activity` | `activity/activity.go` |

The query layer's contracts are stated against a declarative reference: the
nodes of a tree in pre-order (`Html.PreOrder`), filtered by a query
(`Selector.Matching`). `Selector.FirstIn` is the first node of that list and
`Selector.AllIn` is the whole list. The recursive traversals that mirror the
Go code, `Selector.Traverse` and `Selector.Collect`, are proved equal to them.
The extractors' contracts are then stated in terms of `FirstIn` and `AllIn`.

The Go closures passed to `traverse`/`collect` are the closed datatype
`Selector.Query` (`ByTag`, `ByClass`, `ById`). `GetElementBy*` and
`GetElementsBy*` are one-line wrappers over `Traverse` and `Collect`. The
field extractors that only fix a class name or a row label are wrappers too:
`ExtractHealth`, `ParseReleaseYear`, `ParseImdbLink`, `ParseTitle` and the
like. Their properties are stated on the member they wrap.

The two regular expressions follow Go's `regexp` semantics, where `.` does not
match a newline:

- `.*id=(\d*)` run with `FindAllStringSubmatch` finds one match per line that
  holds `id=`. The id is used only when exactly one line holds it. It is then
  the run of digits after the last `id=` of that line, because the leading
  `.*` is greedy.
- `.*\?(http.*)` has its first match on the first line holding `?http`. The
  capture is the rest of that line from the `http` of its last `?http`.

The one-line lemmas (`Search.IdFromOneLineHref`, `Details.LinkFromOneLineHref`)
give the plain reading for hrefs without a newline.

## Model

| member | source | states |
|---|---|---|
| Strings.TrimSpace | parse/selector.go:44-49 | the result has no leading or trailing white space (Go's `unicode.IsSpace` set); it is the input with exactly its leading and trailing white space removed; it is "" exactly when the input is all white space |
| Strings.TrimSpaceUnique | parse/selector.go:49 | any trimmed string that the input pads with white space on both sides is the trim of the input |
| Strings.TrimSpaceOfTrimmed | parse/selector.go:49 | trimming a string without leading or trailing white space changes nothing |
| Strings.JoinedTrimmed | parse/selector.go:49 | two non-empty trimmed strings joined by one space form a trimmed string |
| Strings.TrimTrailingSpace | details/details.go:109 | a non-empty trimmed string with one trailing space trims back to itself |
| Strings.TrimSpaceIdempotent | details/details.go:64-78 | trimming twice is trimming once, so the extra trim of the title extractors changes nothing |
| Strings.ToLower | details/details.go:61 | the result has the input's length and lower-cases each character on its own, the Kelvin sign to `k` included |
| Strings.ToLowerIdempotent | details/details.go:61 | lower-casing a lower-cased string changes nothing |
| Strings.LowerRuneIdempotent | details/details.go:61 | lower-casing one lower-cased character changes nothing |
| Strings.DigitPrefix | search/search.go:10 | the `(\d*)` capture: the longest prefix made only of digits |
| Strings.LastIndex | search/search.go:10 | the position the greedy `.*` stops at: the last occurrence of the pattern, and none exactly when the pattern does not occur |
| Strings.LastIndexUpTo | search/search.go:10 | the last occurrence at or before a bound, none when there is none |
| Strings.Lines | search/search.go:45 | the lines the pattern's `.` cannot leave: at least one, none holding a newline |
| Strings.JoinLinesOfLines | search/search.go:45 | splitting at newlines loses nothing: joining the lines back gives the input |
| Strings.LinesOfJoinLines | search/search.go:45 | joining newline-free lines and splitting again gives those lines back |
| Strings.LinesOfPrefix | search/search.go:45 | a newline-free first line followed by a newline is split off as the first line |
| Strings.SingleLine | search/search.go:45 | a string without a newline is a single line |
| Strings.LinesWith | search/search.go:45-46 | the lines that hold the pattern, each of them and only them, no more entries than lines |
| Strings.LinesWithConcat | search/search.go:45-46 | the filter runs line by line, so the result holds one entry per matching line, in order, repeated lines included; this is the count `len(matches) == 1` tests |
| Strings.NonEmpty | details/details.go:103-108 | keeps every non-empty string and only those, no more entries than parts |
| Strings.NonEmptyConcat | details/details.go:103-108 | the filter runs part by part, so the result holds one entry per non-empty part, in order, repeated labels included |
| Strings.LeadingSpaces | parse/selector.go:49 | the length of the run of white space at the start |
| Strings.TrailingStart | parse/selector.go:49 | where the run of white space at the end starts |
| Selector.FindAttr | parse/selector.go:52-59 | the value of the first attribute with the key and true; ("", false) when no attribute has the key |
| Selector.HasTagName | parse/selector.go:89-91 | the tag query: an element whose tag name is exactly the name; non-elements never match (`Selector.MatchIsExact`) |
| Selector.HasClass | parse/selector.go:93-101 | the class query: an element whose first `class` attribute is exactly the class name |
| Selector.HasId | parse/selector.go:103-111 | the id query: an element whose first `id` attribute is exactly the id |
| Selector.Matches | parse/selector.go:89-111 | dispatches a query to the tag, class or id test |
| Selector.FindAttrFirst | parse/selector.go:52-59 | the lookup yields a value with true exactly when some attribute is the first with the key and holds that value |
| Selector.MatchIsExact | parse/selector.go:89-111 | text and other non-element nodes never match any query; a class or id query matches exactly when the element's first attribute of that name holds the whole string; an attribute holding two space-separated names matches neither name alone, for class and for id |
| Selector.ClassIsNotTokenised | parse/selector.go:93-101 | class "foo bar" does not match "foo" |
| Selector.Matching | parse/selector.go:67-74 | the filtered list holds every matching node of the input and nothing else |
| Selector.MatchingConcat | parse/selector.go:71-73 | filtering a concatenation is concatenating the filtered parts |
| Selector.FirstIn | parse/selector.go:76-87 | a first match matches the query and lies in the tree |
| Selector.FirstInNone | parse/selector.go:76-87 | there is no first match exactly when no node of the tree matches |
| Selector.Collect | parse/selector.go:61-74 | the collected nodes are exactly the matching nodes of the tree in pre-order: the node itself, then each child's matches in sibling order |
| Selector.CollectAll | parse/selector.go:71-73 | the children's matches are the matches in their pre-order listings, in sibling order |
| Selector.Traverse | parse/selector.go:76-87 | the traversal returns the first matching node in pre-order, none when there is none |
| Selector.TraverseAll | parse/selector.go:80-85 | the child loop returns the first match across the children's listings |
| Selector.TraverseChildByChild | parse/selector.go:76-87 | a matching root is returned itself; otherwise the result is the match of the earliest child whose subtree has one, and none when no child has one |
| Selector.TraverseAllNone | parse/selector.go:80-86 | the child loop finds nothing only when no child's subtree has a match |
| Selector.TraverseAllSome | parse/selector.go:80-85 | what the child loop finds is the match of the earliest child whose subtree has one |
| Selector.FirstMatchAgreesWithAll | parse/selector.go:16-38 | the first-match lookup is none exactly when the all-matches lookup is empty, and otherwise is its first element |
| Selector.TextPiece | parse/selector.go:42-47 | what one child adds in the loop: a text node its trimmed data, any other node one space |
| Selector.ChildrenText | parse/selector.go:41-48 | the loop's output: the children's pieces written one after another in sibling order |
| Selector.GetText | parse/selector.go:40-50 | the text is the children's pieces with exactly their leading and trailing white space removed (unique by `Strings.TrimSpaceUnique`), so it has none itself; a node without children gives ""; the text is "" exactly when the children's pieces are all white space |
| Selector.ChildrenTextConcat | parse/selector.go:42-48 | the children's text is built child by child, left to right |
| Selector.NoTextChildrenNoText | parse/selector.go:42-49 | a node none of whose children is a text node has empty text, since each such child adds one space only |
| Selector.NoTextChildrenAllSpace | parse/selector.go:42-48 | non-text children add nothing but spaces |
| Selector.GetTextIdempotent | parse/selector.go:49 | the text is already trimmed |
| Selector.GetTextJoinsAroundBreak | parse/selector.go:42-49 | two non-blank texts around a `br` come out trimmed and joined by exactly one space |
| Selector.BreakPieces | parse/selector.go:42-48 | the pieces of text, `br`, text are the two trimmed texts around one space |
| Selector.TextOrEmpty | search/search.go:81-87 | a missing node gives ""; a found node gives its normalised text; any result is trimmed |
| Search.IdFromHref | search/search.go:10 | the id is made only of digits, and is "" unless exactly one line of the href holds "id=" |
| Search.IdFromOneLineHref | search/search.go:41-51 | on a one-line href the id is the longest run of digits after the last "id=", and "" without "id=" |
| Search.TitleAttr | search/search.go:141-147 | the first `title` attribute's value, "" when there is none |
| Search.HrefAttr | search/search.go:149-155 | the first `href` attribute's value, "" when there is none |
| Search.GetTxtNode | search/search.go:53-59 | the first `torrent_txt` is preferred; only without one is the first `torrent_txt2` taken |
| Search.ExtractId | search/search.go:41-51 | "" without an anchor; otherwise the id in the first anchor's href; always digits only |
| Search.ExtractTitle | search/search.go:61-67 | the first anchor's `title`, "" without an anchor |
| Search.ExtractAltTitle | search/search.go:69-79 | the `title` of the first span under the first `siterank`, "" when either is missing |
| Search.ExtractBoxText | search/search.go:81-127 | the text of the first node of the class (health, size, upload time), "" without it |
| Search.ExtractAnchorText | search/search.go:89-111 | peers and seeds: the text of the first anchor in the first `box_l2`/`box_s2`, "" when either is missing, whatever other text the container holds |
| Search.ExtractUploader | search/search.go:129-139 | the text of the first `feltolto_szin` under the first `box_feltolto2`, "" when either is missing |
| Search.ParseTorrent | search/search.go:22-36 | without a title block id, title and alternate title are ""; with one they come from it; the six other fields are read from the container whether or not the title block exists |
| Search.ParseEach | search/search.go:22-37 | one record per container, in the containers' order, each the record of its own container |
| Search.ParseTorrents | search/search.go:19-39 | exactly one record per `box_torrent` element, in pre-order |
| Search.NoContainersNoTorrents | search/search.go:19-39 | the list is empty exactly when the page has no `box_torrent` element |
| Details.LinkFromHref | details/details.go:11 | the link is "" exactly when no line holds "?http"; otherwise it starts with "http" and holds no newline |
| Details.LinkFromOneLineHref | details/details.go:185-189 | on a one-line href the link is what follows the last "?" that starts "?http", and "" when there is none |
| Details.FindRow | details/details.go:202-208 | whatever the scan over the rows returns is a `td` cell |
| Details.FindRowNone | details/details.go:202-208 | the scan finds nothing exactly when no row has exactly two `td`s with the label as the first cell's text |
| Details.FindRowFirst | details/details.go:202-208 | what the scan finds is the second `td` of the first such row |
| Details.ParseTableElement | details/details.go:192-209 | the row lookup runs over the `tr`s under the first `tbody` under the first `inforbar_txt`, and yields a `td` |
| Details.ParseTableData | details/details.go:164-170 | the value cell's text, "" without the row |
| Details.Texts | details/details.go:103-104 | the text of each anchor, in order |
| Details.SpaceTerminated | details/details.go:102-108 | the builder loop: each non-empty label written followed by one space, empty labels skipped, in order |
| Details.SpaceTerminatedIsJoin | details/details.go:102-108 | writing each non-empty label followed by a space builds the single-space join of those labels plus one trailing space |
| Details.JoinSpacedTrimmed | details/details.go:103-109 | joining trimmed non-empty labels with single spaces gives a trimmed string |
| Details.LabelsAreJoined | details/details.go:102-109 | the trimmed builder output is the single-space join of the non-empty labels |
| Details.ParseLabels | details/details.go:96-110 | the non-empty anchor texts of the labels cell, in document order, joined by single spaces; "" without the row |
| Details.ParseLink | details/details.go:172-190 | "" when the row, the anchor, the href or the match is missing; otherwise the link of the href; any non-empty link starts with "http" |
| Details.ParseCoverImage | details/details.go:128-142 | the `src` of the first `img` under the first `torrent_leiras`, "" when any step is missing |
| Details.Sources | details/details.go:154-160 | images without `src` are skipped; when all have one, the sources are theirs in order; when none has one, the list is empty |
| Details.SourcesConcat | details/details.go:155-160 | the sources keep document order across runs of images |
| Details.ParseOtherImages | details/details.go:144-162 | always a list, never nil; empty when either container is missing; otherwise the sources of all `img`s under the first `center` under the first `fobox_tartalom` |
| Details.ParseType | details/details.go:52-62 | the lower-cased text of the first anchor under the first `torrent_reszletek`, "" when either is missing; lower-casing it again changes nothing |
| Details.TrimmedTextOf | details/details.go:64-78 | the title is the text of the first node of the class, "" without it; the extra trim changes nothing |
| Details.CategoryOf | details/details.go:17-48 | the switch's case groups: "sorozat" falls through to "film", "játék" to "program", then "zene" and "ebook", and anything else selects no case |
| Details.KelvinSignSelectsGame | details/details.go:17-61 | a type label ending in the Kelvin sign lowers to "játék" and selects the game and program fields |
| Details.CategoryOfKnown | details/details.go:17-48 | each field set is selected by exactly its case labels ("sorozat"/"film", "játék"/"program", "zene", "ebook"), and only those six labels select one |
| Details.FieldsFor | details/details.go:17-48 | which fields each case fills and with what: films and series fill the title, the eight table fields (year, director, actors, country, rating, IMDb link, length, other link), the labels, cover and gallery from their extractors, and only they fill the table fields; music and ebooks fill the labels, games and programs never do; films, series, games, programs and ebooks fill the gallery, music never does; every known case fills the cover; an unrecognised label fills nothing |
| Details.FallthroughSharesFields | details/details.go:17-38 | "sorozat" fills exactly the fields "film" fills, and "játék" exactly those "program" fills |
| Details.ParseDetails | details/details.go:13-50 | the type is the lower-cased label; an unrecognised label leaves every other field at its zero value; the gallery is set exactly for the known labels other than "zene"; for "sorozat" and "film" the title and the eight table fields are those fields' extractors; labels are read for "sorozat", "film", "zene" and "ebook" and empty otherwise; the gallery is the image extractor's list for every known label but "zene"; the cover is read for every known label |
| Activity.FirstWithCells | activity/activity.go:92-98 | whatever the loop over the blocks returns is one of them and holds a `dd` node |
| Activity.FirstWithCellsNone | activity/activity.go:92-98 | the loop finds nothing exactly when no block holds a `dd` node |
| Activity.FirstWithCellsFirst | activity/activity.go:92-98 | what the loop finds is the earliest block holding a `dd` node |
| Activity.FindTableElement | activity/activity.go:90-99 | the summary block is the first `fobox_tartalom` that has a descendant of class `dd` |
| Activity.ParseTable | activity/activity.go:66-88 | with fewer than nine `dd` cells nothing changes; otherwise cells 0-3 are the ranks, cell 4 the download flag and cells 5-8 the quota figures; the history is untouched |
| Activity.ParseStatus | activity/activity.go:37-47 | the text of the first child of the first node of the class, not of the node itself; "" when the node or its first child is missing |
| Activity.WellFormedSubtree | activity/activity.go:42-46 | every subtree of a parser-shaped tree is parser-shaped |
| Activity.WellFormedSubtreeAll | activity/activity.go:42-46 | every node under parser-shaped children is parser-shaped |
| Activity.StatusOfTextChildIsEmpty | activity/activity.go:42-46 | a status whose first child is a text node is "" |
| Activity.ParseDivText | activity/activity.go:49-55 | the text of the first node of the class, "" without it |
| Activity.ParseName | activity/activity.go:57-64 | the first anchor's `title`, "" without an anchor or a title |
| Activity.ParseRow | activity/activity.go:23-32 | each field comes from its own sub-element, so a missing one empties only that field |
| Activity.AppendedRows | activity/activity.go:20-34 | appending two row groups keeps the earlier entries and puts every entry of the first group before any of the second |
| Activity.ParseHistory | activity/activity.go:19-35 | the history grows by one entry per `hnr_all` and `hnr_all2` row, keeps what it had, and lists the rows in order; nothing else changes |
| Activity.ParseRows | activity/activity.go:22-34 | one entry per row, in the rows' order, each the entry of its own row |
| Activity.HistoryGroupsInOrder | activity/activity.go:20-21 | all `hnr_all` entries come before all `hnr_all2` entries, concatenated rather than interleaved by document position |
| Activity.ParseResponse | activity/activity.go:8-17 | the summary is zero unless nine cells were found; with nine or more, ranks are the texts of cells 0-3, the download flag that of cell 4 and the quota figures those of cells 5-8; the history holds one entry per `hnr_all` row then per `hnr_all2` row, and is empty, not missing, without rows |

## Left out

- `parsePageInfo`, the pager inference called at `search/search.go:15`: its body is not part of this model, so the search result is the torrent list only.
- The session and HTTP layer (login, cookies, redirects, paging requests): I/O outside the extraction engine.
- HTML parsing: the model starts from an already-built tree. `Html.WellFormed` states the one parser guarantee used, that text nodes have no children.
- Go's `regexp` engine: the two patterns are modelled by the string functions described above, not by a regex matcher.
- Strings.ToLower: does not model Unicode lower-casing beyond ASCII, Latin-1, Latin Extended-A and the Kelvin sign; other characters are left unchanged. Every code point that Go lowers onto a letter of the six dispatch labels is among those modelled, so the dispatch is exact.
- Invalid UTF-8: strings are sequences of characters, so Go's byte-level handling of broken encodings is not modelled.
- Attribute namespaces: an attribute is a key and a value only, as the extractors read it.
- Pointer identity: nodes are values and the extractors only look downward from a found node, so two equal subtrees are indistinguishable here.
- nil versus empty slices: the torrent list and the history are sequences, and an empty one stands for Go's empty, non-nil slice; only `Details.otherImages` keeps the distinction (`None` for the nil of a case that does not run the image extractor).
- The record types `Torrent`, `Details`, `Info`, `Rank` and `Stats` are not part of this model's sources; their fields follow their use in the extractors.
- The search tests expect records without an id and import an older module path; the id follows `search/search.go:41-51`.
- The link field: the link is what follows the last `?` that is immediately followed by `http`, on the first line holding one, not simply what follows the last `?` of the href.
