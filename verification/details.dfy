/**
 The detail-page extractor. The lower-cased type label picks one of four field
 sets (film/series, game/program, music, ebook); the fields come from a
 two-column label/value table, from image sources and from an external link
 carried in an href's query string.
 */
module Details {
  import opened Wrappers
  import opened Strings
  import opened Html
  import opened Selector

  /** The detail record. `otherImages` is `None` where the Go slice stays nil
      and `Some` (possibly empty) where the image extractor ran. */
  datatype Details = Details(
    kind: string,
    title: string,
    releaseYear: string,
    director: string,
    actors: string,
    country: string,
    labels: string,
    imdbRating: string,
    imdbLink: string,
    length: string,
    otherLink: string,
    coverImage: string,
    otherImages: Option<seq<string>>)

  /** A record whose fields other than the type are all at their zero value. */
  function Bare(kind: string): Details {
    Details(kind, "", "", "", "", "", "", "", "", "", "", "", None)
  }

  /** The type labels the dispatch recognises. */
  const KnownKinds: set<string> := {"sorozat", "film", "játék", "program", "zene", "ebook"}

  // ---------------------------------------------------------------------------
  // The link pattern `.*\?(http.*)`
  // ---------------------------------------------------------------------------

  /** The first match's capture. The pattern's `.` does not match a newline, so
      the first match lies on the first line holding "?http"; there the greedy
      `.*` runs to the last "?http" and the capture is the rest of that line. */
  function LinkFromHref(href: string): (r: string)
    ensures r == "" <==> LinesWith(Lines(href), "?http") == []
    ensures r != "" ==> |r| >= 4 && r[..4] == "http" && '\n' !in r
  {
    var hits := LinesWith(Lines(href), "?http");
    if |hits| == 0 then ""
    else
      var line := hits[0];
      var p := LastIndex(line, "?http").value;
      assert line in Lines(href);
      assert line[p..p + 5] == "?http";
      assert line[p + 1..][..4] == line[p..p + 5][1..];
      assert "?http"[1..] == "http";
      line[p + 1..]
  }

  /** On a one-line href the link is what follows the last "?" that starts
      "?http", and "" when no "?" is followed by "http". */
  lemma LinkFromOneLineHref(href: string)
    requires '\n' !in href
    ensures LinkFromHref(href) == match LastIndex(href, "?http")
                                  case None => ""
                                  case Some(p) => href[p + 1..]
  {
    SingleLine(href);
    var hits := LinesWith([href], "?http");
    if Contains(href, "?http") {
      assert href in hits;
      assert hits == [href];
    } else {
      assert |hits| == 0;
    }
  }

  // ---------------------------------------------------------------------------
  // The label/value table
  // ---------------------------------------------------------------------------

  /** The rows the table lookup scans: every `tr` under the first `tbody` under
      the first `inforbar_txt`; none when either container is missing. */
  function TableRows(doc: Node): seq<Node> {
    match FirstIn(doc, ByClass("inforbar_txt"))
    case None => []
    case Some(info) =>
      match FirstIn(info, ByTag("tbody"))
      case None => []
      case Some(tbody) => AllIn(tbody, ByTag("tr"))
  }

  /** A row with exactly two `td` descendants whose first cell's text is `rowLabel`. */
  predicate IsLabelRow(row: Node, rowLabel: string) {
    var cells := AllIn(row, ByTag("td"));
    |cells| == 2 && GetText(cells[0]) == rowLabel
  }

  /** The scan over the rows: the value cell of the first row labelled `rowLabel`. */
  function FindRow(rows: seq<Node>, rowLabel: string): (r: Option<Node>)
    ensures r.Some? ==> HasTagName(r.value, "td")
  {
    if |rows| == 0 then None
    else
      var cells := GetElementsByTag(rows[0], "td");
      if |cells| == 2 && GetText(cells[0]) == rowLabel then
        assert cells[1] in cells;
        Some(cells[1])
      else
        FindRow(rows[1..], rowLabel)
  }

  /** One step of the scan: a labelled first row gives its second cell,
      any other first row is skipped. */
  lemma FindRowStep(rows: seq<Node>, rowLabel: string)
    requires |rows| > 0
    ensures IsLabelRow(rows[0], rowLabel) ==> FindRow(rows, rowLabel) == Some(AllIn(rows[0], ByTag("td"))[1])
    ensures !IsLabelRow(rows[0], rowLabel) ==> FindRow(rows, rowLabel) == FindRow(rows[1..], rowLabel)
  {
  }

  /** The scan finds nothing exactly when no row is labelled `rowLabel`. */
  lemma {:induction false} FindRowNone(rows: seq<Node>, rowLabel: string)
    ensures FindRow(rows, rowLabel).None? <==> forall i | 0 <= i < |rows| :: !IsLabelRow(rows[i], rowLabel)
  {
    if |rows| > 0 {
      FindRowStep(rows, rowLabel);
      if !IsLabelRow(rows[0], rowLabel) {
        var rest := rows[1..];
        FindRowNone(rest, rowLabel);
        if FindRow(rest, rowLabel).None? {
          forall i | 1 <= i < |rows| ensures !IsLabelRow(rows[i], rowLabel) {
            assert rows[i] == rest[i - 1];
          }
        } else {
          var i :| 0 <= i < |rest| && IsLabelRow(rest[i], rowLabel);
          assert rows[i + 1] == rest[i];
        }
      }
    }
  }

  /** What the scan finds is the second cell of the first row labelled `rowLabel`. */
  lemma {:induction false} FindRowFirst(rows: seq<Node>, rowLabel: string)
    ensures FindRow(rows, rowLabel).Some? ==> exists i | 0 <= i < |rows| ::
              && IsLabelRow(rows[i], rowLabel)
              && (forall j | 0 <= j < i :: !IsLabelRow(rows[j], rowLabel))
              && FindRow(rows, rowLabel).value == AllIn(rows[i], ByTag("td"))[1]
  {
    if |rows| > 0 {
      FindRowStep(rows, rowLabel);
      if !IsLabelRow(rows[0], rowLabel) {
        var rest := rows[1..];
        FindRowFirst(rest, rowLabel);
        if FindRow(rest, rowLabel).Some? {
          var i :| 0 <= i < |rest| && IsLabelRow(rest[i], rowLabel)
                   && (forall j | 0 <= j < i :: !IsLabelRow(rest[j], rowLabel))
                   && FindRow(rest, rowLabel).value == AllIn(rest[i], ByTag("td"))[1];
          EarlierRowsSkipped(rows, i + 1, rowLabel);
          assert rows[i + 1] == rest[i];
        }
      }
    }
  }

  /** If neither the first row nor any of the next `k - 1` rows is labelled,
      none of the first `k` rows is. */
  lemma EarlierRowsSkipped(rows: seq<Node>, k: nat, rowLabel: string)
    requires 0 < k <= |rows|
    requires !IsLabelRow(rows[0], rowLabel)
    requires forall j | 0 <= j < k - 1 :: !IsLabelRow(rows[1..][j], rowLabel)
    ensures forall j | 0 <= j < k :: !IsLabelRow(rows[j], rowLabel)
  {
    forall j | 0 < j < k ensures !IsLabelRow(rows[j], rowLabel) {
      assert rows[j] == rows[1..][j - 1];
    }
  }

  /** The value cell for `rowLabel`: the second `td` of the first table row that has
      exactly two `td`s and whose first one reads `rowLabel`; none otherwise. */
  function ParseTableElement(doc: Node, rowLabel: string): (r: Option<Node>)
    ensures r == FindRow(TableRows(doc), rowLabel)
    ensures r.Some? ==> HasTagName(r.value, "td")
  {
    match GetElementByClass(doc, "inforbar_txt")
    case None => None
    case Some(info) =>
      match GetElementByTag(info, "tbody")
      case None => None
      case Some(tbody) =>
        assert TableRows(doc) == GetElementsByTag(tbody, "tr");
        FindRow(GetElementsByTag(tbody, "tr"), rowLabel)
  }

  /** The text of the value cell, "" when there is no such row. */
  function ParseTableData(doc: Node, rowLabel: string): (r: string)
    ensures ParseTableElement(doc, rowLabel).None? ==> r == ""
    ensures ParseTableElement(doc, rowLabel).Some? ==> r == GetText(ParseTableElement(doc, rowLabel).value)
    ensures IsTrimmed(r)
  {
    TextOrEmpty(ParseTableElement(doc, rowLabel))
  }

  function ParseReleaseYear(doc: Node): string { ParseTableData(doc, "Megjelenés éve:") }
  function ParseDirector(doc: Node): string { ParseTableData(doc, "Rendező:") }
  function ParseActors(doc: Node): string { ParseTableData(doc, "Szereplők:") }
  function ParseCountry(doc: Node): string { ParseTableData(doc, "Ország:") }
  function ParseImdbRating(doc: Node): string { ParseTableData(doc, "IMDb értékelés:") }
  function ParseLength(doc: Node): string { ParseTableData(doc, "Hossz:") }

  // ---------------------------------------------------------------------------
  // Labels
  // ---------------------------------------------------------------------------

  /** The texts of the nodes, in order. */
  function Texts(ns: seq<Node>): (r: seq<string>)
    ensures |r| == |ns|
    ensures forall i | 0 <= i < |ns| :: r[i] == GetText(ns[i])
  {
    if |ns| == 0 then [] else [GetText(ns[0])] + Texts(ns[1..])
  }

  /** The builder loop of the labels extractor: each non-empty label followed by a space. */
  function SpaceTerminated(labels: seq<string>): string {
    if |labels| == 0 then ""
    else if labels[0] == "" then SpaceTerminated(labels[1..])
    else labels[0] + " " + SpaceTerminated(labels[1..])
  }

  /** Writing each non-empty label followed by a space builds the single-space
      join of those labels, plus one trailing space. */
  lemma {:induction false} SpaceTerminatedIsJoin(labels: seq<string>)
    ensures NonEmpty(labels) == [] ==> SpaceTerminated(labels) == ""
    ensures NonEmpty(labels) != [] ==> SpaceTerminated(labels) == JoinSpaced(NonEmpty(labels)) + " "
  {
    if |labels| > 0 {
      SpaceTerminatedIsJoin(labels[1..]);
      if labels[0] != "" {
        var rest := NonEmpty(labels[1..]);
        assert NonEmpty(labels) == [labels[0]] + rest;
        if rest != [] {
          assert NonEmpty(labels)[1..] == rest;
        }
      }
    }
  }

  /** Joining trimmed, non-empty parts with single spaces gives a trimmed string. */
  lemma {:induction false} JoinSpacedTrimmed(parts: seq<string>)
    requires forall i | 0 <= i < |parts| :: parts[i] != "" && IsTrimmed(parts[i])
    ensures IsTrimmed(JoinSpaced(parts))
    ensures parts != [] ==>
              && JoinSpaced(parts) != ""
              && JoinSpaced(parts)[0] == parts[0][0]
              && JoinSpaced(parts)[|JoinSpaced(parts)| - 1] == parts[|parts| - 1][|parts[|parts| - 1]| - 1]
  {
    if |parts| > 1 {
      JoinSpacedTrimmed(parts[1..]);
      var j := JoinSpaced(parts);
      assert j == parts[0] + " " + JoinSpaced(parts[1..]);
    }
  }

  /** The labels string: the non-empty labels, in order, separated by single spaces. */
  lemma LabelsAreJoined(labels: seq<string>)
    requires forall i | 0 <= i < |labels| :: IsTrimmed(labels[i])
    ensures TrimSpace(SpaceTerminated(labels)) == JoinSpaced(NonEmpty(labels))
  {
    SpaceTerminatedIsJoin(labels);
    var ne := NonEmpty(labels);
    if ne == [] {
      TrimSpaceOfTrimmed("");
    } else {
      forall i | 0 <= i < |ne| ensures ne[i] != "" && IsTrimmed(ne[i]) {
        var k :| 0 <= k < |labels| && labels[k] == ne[i];
      }
      JoinSpacedTrimmed(ne);
      TrimTrailingSpace(JoinSpaced(ne));
    }
  }

  /** The anchor texts of the labels cell, non-empty ones only, joined by single
      spaces in document order; "" without the row. */
  function ParseLabels(doc: Node): (r: string)
    ensures ParseTableElement(doc, "Címkék:").None? ==> r == ""
    ensures ParseTableElement(doc, "Címkék:").Some? ==>
              r == JoinSpaced(NonEmpty(Texts(AllIn(ParseTableElement(doc, "Címkék:").value, ByTag("a")))))
  {
    match ParseTableElement(doc, "Címkék:")
    case None => ""
    case Some(el) =>
      var labels := Texts(GetElementsByTag(el, "a"));
      LabelsAreJoined(labels);
      TrimSpace(SpaceTerminated(labels))
  }

  // ---------------------------------------------------------------------------
  // Links and images
  // ---------------------------------------------------------------------------

  /** The external link in the href of the first anchor of the value cell;
      "" when the row, the anchor, the href or the pattern's match is missing. */
  function ParseLink(doc: Node, rowLabel: string): (r: string)
    ensures ParseTableElement(doc, rowLabel).None? ==> r == ""
    ensures ParseTableElement(doc, rowLabel).Some? ==>
              match FirstIn(ParseTableElement(doc, rowLabel).value, ByTag("a"))
              case None => r == ""
              case Some(a) =>
                && (!FindAttr(a.attrs, "href").1 ==> r == "")
                && (FindAttr(a.attrs, "href").1 ==> r == LinkFromHref(FindAttr(a.attrs, "href").0))
    ensures r != "" ==> |r| >= 4 && r[..4] == "http"
  {
    match ParseTableElement(doc, rowLabel)
    case None => ""
    case Some(el) =>
      match GetElementByTag(el, "a")
      case None => ""
      case Some(a) =>
        var (href, ok) := FindAttr(a.attrs, "href");
        if !ok then "" else LinkFromHref(href)
  }

  function ParseImdbLink(doc: Node): string { ParseLink(doc, "IMDb link:") }
  function ParseOtherLink(doc: Node): string { ParseLink(doc, "Egyéb link:") }

  /** The `src` of the first `img` under the first `torrent_leiras`; "" when any step is missing. */
  function ParseCoverImage(doc: Node): (r: string)
    ensures FirstIn(doc, ByClass("torrent_leiras")).None? ==> r == ""
    ensures FirstIn(doc, ByClass("torrent_leiras")).Some? ==>
              match FirstIn(FirstIn(doc, ByClass("torrent_leiras")).value, ByTag("img"))
              case None => r == ""
              case Some(img) => r == FindAttr(img.attrs, "src").0
  {
    match GetElementByClass(doc, "torrent_leiras")
    case None => ""
    case Some(div) =>
      match GetElementByTag(div, "img")
      case None => ""
      case Some(img) =>
        var (src, ok) := FindAttr(img.attrs, "src");
        if !ok then "" else src
  }

  /** The `src` values of the images that have one, in order. */
  function Sources(imgs: seq<Node>): (r: seq<string>)
    ensures |r| <= |imgs|
    ensures (forall i | 0 <= i < |imgs| :: FindAttr(imgs[i].attrs, "src").1) ==>
              |r| == |imgs| && forall i | 0 <= i < |imgs| :: r[i] == FindAttr(imgs[i].attrs, "src").0
    ensures (forall i | 0 <= i < |imgs| :: !FindAttr(imgs[i].attrs, "src").1) ==> r == []
  {
    if |imgs| == 0 then []
    else
      var rest := Sources(imgs[1..]);
      var (src, ok) := FindAttr(imgs[0].attrs, "src");
      if ok then [src] + rest else rest
  }

  /** Images keep document order: the sources of two runs of images are the
      sources of the first run followed by those of the second. */
  lemma {:induction false} SourcesConcat(a: seq<Node>, b: seq<Node>)
    ensures Sources(a + b) == Sources(a) + Sources(b)
  {
    if |a| == 0 {
      assert a + b == b;
    } else {
      assert (a + b)[1..] == a[1..] + b;
      SourcesConcat(a[1..], b);
    }
  }

  /** The gallery: the `src` of every `img` under the first `center` under the
      first `fobox_tartalom`, in order; an empty, non-nil list when a container
      is missing. */
  function ParseOtherImages(doc: Node): (r: Option<seq<string>>)
    ensures r.Some?
    ensures FirstIn(doc, ByClass("fobox_tartalom")).None? ==> r == Some([])
    ensures FirstIn(doc, ByClass("fobox_tartalom")).Some? ==>
              match FirstIn(FirstIn(doc, ByClass("fobox_tartalom")).value, ByTag("center"))
              case None => r == Some([])
              case Some(center) => r == Some(Sources(AllIn(center, ByTag("img"))))
  {
    match GetElementByClass(doc, "fobox_tartalom")
    case None => Some([])
    case Some(div) =>
      match GetElementByTag(div, "center")
      case None => Some([])
      case Some(el) => Some(Sources(GetElementsByTag(el, "img")))
  }

  // ---------------------------------------------------------------------------
  // Type, titles and dispatch
  // ---------------------------------------------------------------------------

  /** The lower-cased text of the first anchor under the first `torrent_reszletek`. */
  function ParseType(doc: Node): (r: string)
    ensures FirstIn(doc, ByClass("torrent_reszletek")).None? ==> r == ""
    ensures FirstIn(doc, ByClass("torrent_reszletek")).Some? ==>
              match FirstIn(FirstIn(doc, ByClass("torrent_reszletek")).value, ByTag("a"))
              case None => r == ""
              case Some(a) => r == ToLower(GetText(a))
    ensures ToLower(r) == r
  {
    match GetElementByClass(doc, "torrent_reszletek")
    case None => ""
    case Some(div) =>
      match GetElementByTag(div, "a")
      case None => ""
      case Some(a) =>
        ToLowerIdempotent(GetText(a));
        ToLower(GetText(a))
  }

  /** The text of the first node of the class; the extra trim the title
      extractors apply is a no-op on already normalised text. */
  function TrimmedTextOf(doc: Node, className: string): (r: string)
    ensures r == TextOrEmpty(FirstIn(doc, ByClass(className)))
  {
    match GetElementByClass(doc, className)
    case None => ""
    case Some(div) =>
      GetTextIdempotent(div);
      TrimSpace(GetText(div))
  }

  function ParseTitle(doc: Node): string { TrimmedTextOf(doc, "infobar_title") }
  function ParseGameTitle(doc: Node): string { TrimmedTextOf(doc, "torrent_reszletek_cim") }

  /** The field sets the switch on the type label chooses between. */
  datatype Category = FilmOrSeries | GameOrProgram | Music | Ebook | Unrecognised

  /** The cases of the switch: "sorozat" falls through to "film" and "játék" to
      "program"; there is no default case. */
  function CategoryOf(kind: string): Category {
    if kind == "sorozat" || kind == "film" then FilmOrSeries
    else if kind == "játék" || kind == "program" then GameOrProgram
    else if kind == "zene" then Music
    else if kind == "ebook" then Ebook
    else Unrecognised
  }

  /** A type label spelled with the Kelvin sign for its last letter lowers to
      "játék" and selects the game and program fields. */
  lemma KelvinSignSelectsGame()
    ensures CategoryOf(ToLower("JÁTÉ\U{212A}")) == GameOrProgram
  {
  }

  /** Each field set is selected by exactly its case labels, and only the six
      known labels select one. */
  lemma CategoryOfKnown(kind: string)
    ensures CategoryOf(kind) == FilmOrSeries <==> kind in {"sorozat", "film"}
    ensures CategoryOf(kind) == GameOrProgram <==> kind in {"játék", "program"}
    ensures CategoryOf(kind) == Music <==> kind == "zene"
    ensures CategoryOf(kind) == Ebook <==> kind == "ebook"
    ensures CategoryOf(kind) != Unrecognised <==> kind in KnownKinds
  {
  }

  /** The fields one case of the switch fills; all others stay at their zero value. */
  function FieldsFor(c: Category, doc: Node): (r: Details)
    ensures r.kind == ""
    ensures c == Unrecognised ==> r == Bare("")
    ensures r.otherImages.Some? <==> c in {FilmOrSeries, GameOrProgram, Ebook}
    ensures c in {GameOrProgram, Unrecognised} ==> r.labels == ""
    ensures c != FilmOrSeries ==>
              && r.releaseYear == "" && r.director == "" && r.actors == "" && r.country == ""
              && r.imdbRating == "" && r.imdbLink == "" && r.length == "" && r.otherLink == ""
    ensures c == FilmOrSeries ==> r.title == ParseTitle(doc)
    ensures c in {GameOrProgram, Music, Ebook} ==> r.title == ParseGameTitle(doc)
    ensures c != Unrecognised ==> r.coverImage == ParseCoverImage(doc)
    ensures c == FilmOrSeries ==>
              && r.releaseYear == ParseReleaseYear(doc) && r.director == ParseDirector(doc)
              && r.actors == ParseActors(doc) && r.country == ParseCountry(doc)
              && r.imdbRating == ParseImdbRating(doc) && r.imdbLink == ParseImdbLink(doc)
              && r.length == ParseLength(doc) && r.otherLink == ParseOtherLink(doc)
    ensures c in {FilmOrSeries, Music, Ebook} ==> r.labels == ParseLabels(doc)
    ensures c in {FilmOrSeries, GameOrProgram, Ebook} ==> r.otherImages == ParseOtherImages(doc)
  {
    var d := Bare("");
    match c
    case FilmOrSeries =>
      d.(title := ParseTitle(doc),
         releaseYear := ParseReleaseYear(doc),
         director := ParseDirector(doc),
         actors := ParseActors(doc),
         country := ParseCountry(doc),
         labels := ParseLabels(doc),
         imdbRating := ParseImdbRating(doc),
         imdbLink := ParseImdbLink(doc),
         length := ParseLength(doc),
         otherLink := ParseOtherLink(doc),
         coverImage := ParseCoverImage(doc),
         otherImages := ParseOtherImages(doc))
    case GameOrProgram =>
      d.(title := ParseGameTitle(doc),
         coverImage := ParseCoverImage(doc),
         otherImages := ParseOtherImages(doc))
    case Music =>
      d.(title := ParseGameTitle(doc),
         coverImage := ParseCoverImage(doc),
         labels := ParseLabels(doc))
    case Ebook =>
      d.(title := ParseGameTitle(doc),
         coverImage := ParseCoverImage(doc),
         otherImages := ParseOtherImages(doc),
         labels := ParseLabels(doc))
    case Unrecognised =>
      d
  }

  /** A series fills exactly the fields a film fills, and a game those a program fills. */
  lemma FallthroughSharesFields(doc: Node)
    ensures FieldsFor(CategoryOf("sorozat"), doc) == FieldsFor(CategoryOf("film"), doc)
    ensures FieldsFor(CategoryOf("játék"), doc) == FieldsFor(CategoryOf("program"), doc)
  {
  }

  /** The detail record of a page: the lower-cased type label, and the field
      set it selects. An unrecognised or missing label leaves every other field
      at its zero value; "zene" never fills the gallery, games and programs never
      fill the labels, and only films and series fill the table fields. */
  function ParseDetails(doc: Node): (r: Details)
    ensures r.kind == ParseType(doc) && ToLower(r.kind) == r.kind
    ensures r.kind !in KnownKinds ==> r == Bare(r.kind)
    ensures r.otherImages.Some? <==> r.kind in KnownKinds && r.kind != "zene"
    ensures r.kind !in {"sorozat", "film", "zene", "ebook"} ==> r.labels == ""
    ensures r.kind !in {"sorozat", "film"} ==>
              && r.releaseYear == "" && r.director == "" && r.actors == "" && r.country == ""
              && r.imdbRating == "" && r.imdbLink == "" && r.length == "" && r.otherLink == ""
    ensures r.kind in {"sorozat", "film"} ==> r.title == ParseTitle(doc)
    ensures r.kind in {"játék", "program", "zene", "ebook"} ==> r.title == ParseGameTitle(doc)
    ensures r.kind in KnownKinds ==> r.coverImage == ParseCoverImage(doc)
    ensures r.kind in {"sorozat", "film"} ==>
              && r.releaseYear == ParseReleaseYear(doc) && r.director == ParseDirector(doc)
              && r.actors == ParseActors(doc) && r.country == ParseCountry(doc)
              && r.imdbRating == ParseImdbRating(doc) && r.imdbLink == ParseImdbLink(doc)
              && r.length == ParseLength(doc) && r.otherLink == ParseOtherLink(doc)
    ensures r.kind in {"sorozat", "film", "zene", "ebook"} ==> r.labels == ParseLabels(doc)
    ensures r.kind in {"sorozat", "film", "játék", "program", "ebook"} ==> r.otherImages == ParseOtherImages(doc)
  {
    var kind := ParseType(doc);
    var c := CategoryOf(kind);
    CategoryOfKnown(kind);
    var d := FieldsFor(c, doc);
    d.(kind := kind)
  }
}
