/**
 The activity extractor: the account's rank/quota summary, read positionally
 from nine `dd` cells and taken all-or-nothing, and the per-torrent history.
 */
module Activity {
  import opened Wrappers
  import opened Strings
  import opened Html
  import opened Selector

  datatype Rank = Rank(daily: string, weekly: string, monthly: string, prevMonth: string)

  datatype Stats = Stats(current: string, allowed: string, penMonths: string, penTorrents: string)

  datatype TorrentActivity = TorrentActivity(
    name: string,
    start: string,
    updated: string,
    status: string,
    up: string,
    down: string,
    remaining: string,
    ratio: string)

  datatype Info = Info(rank: Rank, canDownload: string, stats: Stats, history: seq<TorrentActivity>)

  const NoRank := Rank("", "", "", "")
  const NoStats := Stats("", "", "", "")

  // ---------------------------------------------------------------------------
  // Summary
  // ---------------------------------------------------------------------------

  /** The loop of the block lookup: the first of `blocks` that holds a `dd` node. */
  function FirstWithCells(blocks: seq<Node>): (r: Option<Node>)
    ensures r.Some? ==> r.value in blocks && FirstIn(r.value, ByClass("dd")).Some?
  {
    if |blocks| == 0 then None
    else if GetElementByClass(blocks[0], "dd").Some? then Some(blocks[0])
    else FirstWithCells(blocks[1..])
  }

  /** The loop finds nothing exactly when no block holds a `dd` node. */
  lemma {:induction false} FirstWithCellsNone(blocks: seq<Node>)
    ensures FirstWithCells(blocks).None? <==> forall i | 0 <= i < |blocks| :: FirstIn(blocks[i], ByClass("dd")).None?
  {
    if |blocks| > 0 && FirstIn(blocks[0], ByClass("dd")).None? {
      var rest := blocks[1..];
      assert FirstWithCells(blocks) == FirstWithCells(rest);
      FirstWithCellsNone(rest);
      if FirstWithCells(rest).None? {
        forall i | 1 <= i < |blocks| ensures FirstIn(blocks[i], ByClass("dd")).None? {
          assert blocks[i] == rest[i - 1];
        }
      } else {
        var i :| 0 <= i < |rest| && FirstIn(rest[i], ByClass("dd")).Some?;
        assert blocks[i + 1] == rest[i];
      }
    }
  }

  /** What the loop finds is the earliest block that holds a `dd` node. */
  lemma {:induction false} FirstWithCellsFirst(blocks: seq<Node>)
    ensures FirstWithCells(blocks).Some? ==> exists i | 0 <= i < |blocks| ::
              && FirstWithCells(blocks).value == blocks[i]
              && forall j | 0 <= j < i :: FirstIn(blocks[j], ByClass("dd")).None?
  {
    if |blocks| > 0 {
      var r := FirstWithCells(blocks);
      if FirstIn(blocks[0], ByClass("dd")).Some? {
        assert r.value == blocks[0];
      } else {
        var rest := blocks[1..];
        assert r == FirstWithCells(rest);
        FirstWithCellsFirst(rest);
        if r.Some? {
          var i :| 0 <= i < |rest| && r.value == rest[i]
                   && forall j | 0 <= j < i :: FirstIn(rest[j], ByClass("dd")).None?;
          assert blocks[i + 1] == rest[i];
          forall j | 0 <= j < i + 1 ensures FirstIn(blocks[j], ByClass("dd")).None? {
            if j > 0 {
              assert blocks[j] == rest[j - 1];
            }
          }
        }
      }
    }
  }

  /** The summary block: the first `fobox_tartalom` that holds a node of class
      `dd` (a class, not a tag); none when no such block exists. */
  function FindTableElement(doc: Node): (r: Option<Node>)
    ensures r == FirstWithCells(AllIn(doc, ByClass("fobox_tartalom")))
    ensures r.Some? ==> HasClass(r.value, "fobox_tartalom") && FirstIn(r.value, ByClass("dd")).Some?
  {
    var blocks := GetElementsByClass(doc, "fobox_tartalom");
    var r := FirstWithCells(blocks);
    assert r.Some? ==> r.value in blocks;
    r
  }

  /** The `dd` cells of the summary block, in document order; none without the block. */
  function SummaryCells(doc: Node): seq<Node> {
    match FindTableElement(doc)
    case None => []
    case Some(block) => AllIn(block, ByClass("dd"))
  }

  /** Fills the summary. With fewer than nine cells nothing changes; with nine
      or more, cells 0-3 are the four ranks, cell 4 the download flag and cells
      5-8 the four quota figures; later cells are ignored. The history is never
      touched. */
  function ParseTable(doc: Node, info: Info): (r: Info)
    ensures r.history == info.history
    ensures |SummaryCells(doc)| < 9 ==> r == info
    ensures |SummaryCells(doc)| >= 9 ==>
              var cells := SummaryCells(doc);
              && r.rank == Rank(GetText(cells[0]), GetText(cells[1]), GetText(cells[2]), GetText(cells[3]))
              && r.canDownload == GetText(cells[4])
              && r.stats == Stats(GetText(cells[5]), GetText(cells[6]), GetText(cells[7]), GetText(cells[8]))
  {
    match FindTableElement(doc)
    case None => info
    case Some(element) =>
      var data := GetElementsByClass(element, "dd");
      if |data| < 9 then info
      else
        info.(rank := Rank(GetText(data[0]), GetText(data[1]), GetText(data[2]), GetText(data[3])),
              canDownload := GetText(data[4]),
              stats := Stats(GetText(data[5]), GetText(data[6]), GetText(data[7]), GetText(data[8])))
  }

  // ---------------------------------------------------------------------------
  // History
  // ---------------------------------------------------------------------------

  /** The text of the first child of the first node of the class (the value sits
      in a nested span); "" when the node or its first child is missing. */
  function ParseStatus(node: Node, className: string): (r: string)
    ensures FirstIn(node, ByClass(className)).None? ==> r == ""
    ensures FirstIn(node, ByClass(className)).Some? ==>
              var div := FirstIn(node, ByClass(className)).value;
              && (|div.children| == 0 ==> r == "")
              && (|div.children| > 0 ==> r == GetText(div.children[0]))
    ensures IsTrimmed(r)
  {
    match GetElementByClass(node, className)
    case None => ""
    case Some(div) =>
      if |div.children| == 0 then "" else GetText(div.children[0])
  }

  /** Every subtree of a parser-shaped tree is parser-shaped. */
  lemma {:induction false} WellFormedSubtree(n: Node, m: Node)
    requires WellFormed(n) && m in PreOrder(n)
    ensures WellFormed(m)
    decreases n
  {
    if m != n {
      WellFormedSubtreeAll(n.children, m);
    }
  }

  lemma {:induction false} WellFormedSubtreeAll(cs: seq<Node>, m: Node)
    requires forall i | 0 <= i < |cs| :: WellFormed(cs[i])
    requires m in PreOrderAll(cs)
    ensures WellFormed(m)
    decreases cs
  {
    if m in PreOrder(cs[0]) {
      WellFormedSubtree(cs[0], m);
    } else {
      WellFormedSubtreeAll(cs[1..], m);
    }
  }

  /** On a parser-shaped tree a status whose first child is a bare text node
      (no nested span) comes out as "". */
  lemma StatusOfTextChildIsEmpty(node: Node, className: string)
    requires WellFormed(node)
    requires FirstIn(node, ByClass(className)).Some?
    requires var div := FirstIn(node, ByClass(className)).value;
             |div.children| > 0 && div.children[0].kind == TextNode
    ensures ParseStatus(node, className) == ""
  {
    var div := FirstIn(node, ByClass(className)).value;
    WellFormedSubtree(node, div);
  }

  /** The text of the first node of the class; "" when there is none. */
  function ParseDivText(node: Node, className: string): (r: string)
    ensures FirstIn(node, ByClass(className)).None? ==> r == ""
    ensures FirstIn(node, ByClass(className)).Some? ==> r == GetText(FirstIn(node, ByClass(className)).value)
    ensures IsTrimmed(r)
  {
    TextOrEmpty(GetElementByClass(node, className))
  }

  /** The `title` of the first anchor; "" without an anchor or a title. */
  function ParseName(node: Node): (r: string)
    ensures FirstIn(node, ByTag("a")).None? ==> r == ""
    ensures FirstIn(node, ByTag("a")).Some? ==> r == FindAttr(FirstIn(node, ByTag("a")).value.attrs, "title").0
  {
    match GetElementByTag(node, "a")
    case None => ""
    case Some(a) => FindAttr(a.attrs, "title").0
  }

  /** One history entry; each field comes from its own sub-element, so a
      missing one empties only that field. */
  function ParseRow(torrent: Node): (r: TorrentActivity)
    ensures r.name == ParseName(torrent)
    ensures r.start == ParseDivText(torrent, "hnr_tstart") && r.updated == ParseDivText(torrent, "hnr_tlastactive")
    ensures r.up == ParseDivText(torrent, "hnr_tup") && r.down == ParseDivText(torrent, "hnr_tdown")
    ensures r.status == ParseStatus(torrent, "hnr_tseed") && r.remaining == ParseStatus(torrent, "hnr_ttimespent")
    ensures r.ratio == ParseStatus(torrent, "hnr_tratio")
  {
    TorrentActivity(
      name := ParseName(torrent),
      start := ParseDivText(torrent, "hnr_tstart"),
      updated := ParseDivText(torrent, "hnr_tlastactive"),
      status := ParseStatus(torrent, "hnr_tseed"),
      up := ParseDivText(torrent, "hnr_tup"),
      down := ParseDivText(torrent, "hnr_tdown"),
      remaining := ParseStatus(torrent, "hnr_ttimespent"),
      ratio := ParseStatus(torrent, "hnr_tratio"))
  }

  /** The loop over the history rows: one entry each, in order. */
  function ParseRows(rows: seq<Node>): (r: seq<TorrentActivity>)
    ensures |r| == |rows|
    ensures forall i | 0 <= i < |rows| :: r[i] == ParseRow(rows[i])
  {
    seq(|rows|, i requires 0 <= i < |rows| => ParseRow(rows[i]))
  }

  /** The history rows of a page: all `hnr_all` rows, then all `hnr_all2` rows. */
  function HistoryRows(doc: Node): seq<Node> {
    AllIn(doc, ByClass("hnr_all")) + AllIn(doc, ByClass("hnr_all2"))
  }

  /** Appending the entries of two row groups keeps the earlier entries and
      lists the first group's entries before the second's. */
  lemma AppendedRows(h: seq<TorrentActivity>, odd: seq<Node>, even: seq<Node>)
    ensures var r := h + ParseRows(odd + even);
            && |r| == |h| + |odd| + |even|
            && r[..|h|] == h
            && (forall i | 0 <= i < |odd| :: r[|h| + i] == ParseRow(odd[i]))
            && (forall i | 0 <= i < |even| :: r[|h| + |odd| + i] == ParseRow(even[i]))
  {
    var ts := odd + even;
    var r := h + ParseRows(ts);
    assert r[..|h|] == h;
    forall i | 0 <= i < |odd| ensures r[|h| + i] == ParseRow(odd[i]) {
      assert ts[i] == odd[i];
    }
    forall i | 0 <= i < |even| ensures r[|h| + |odd| + i] == ParseRow(even[i]) {
      assert ts[|odd| + i] == even[i];
    }
  }

  /** Appends one entry per history row: all `hnr_all` rows first, then all
      `hnr_all2` rows, each group in document order. Nothing else changes. */
  function ParseHistory(doc: Node, info: Info): (r: Info)
    ensures r.rank == info.rank && r.canDownload == info.canDownload && r.stats == info.stats
    ensures |r.history| == |info.history| + |HistoryRows(doc)|
    ensures r.history[..|info.history|] == info.history
    ensures forall i | 0 <= i < |HistoryRows(doc)| :: r.history[|info.history| + i] == ParseRow(HistoryRows(doc)[i])
  {
    var torrents := GetElementsByClass(doc, "hnr_all") + GetElementsByClass(doc, "hnr_all2");
    var history := info.history + ParseRows(torrents);
    assert history[..|info.history|] == info.history;
    Info(info.rank, info.canDownload, info.stats, history)
  }

  /** The two row groups keep their order in the history: every `hnr_all` entry
      precedes every `hnr_all2` entry. */
  lemma HistoryGroupsInOrder(doc: Node, info: Info)
    ensures var r, odd, even := ParseHistory(doc, info), AllIn(doc, ByClass("hnr_all")), AllIn(doc, ByClass("hnr_all2"));
            && (forall i | 0 <= i < |odd| :: r.history[|info.history| + i] == ParseRow(odd[i]))
            && (forall i | 0 <= i < |even| :: r.history[|info.history| + |odd| + i] == ParseRow(even[i]))
  {
    var odd, even := AllIn(doc, ByClass("hnr_all")), AllIn(doc, ByClass("hnr_all2"));
    AppendedRows(info.history, odd, even);
  }

  /** The activity page: the summary (all zero unless nine cells were found) and
      the history (an empty list when there are no rows). */
  function ParseResponse(doc: Node): (r: Info)
    ensures |SummaryCells(doc)| < 9 ==> r.rank == NoRank && r.canDownload == "" && r.stats == NoStats
    ensures |SummaryCells(doc)| >= 9 ==>
              var cells := SummaryCells(doc);
              && r.rank == Rank(GetText(cells[0]), GetText(cells[1]), GetText(cells[2]), GetText(cells[3]))
              && r.canDownload == GetText(cells[4])
              && r.stats == Stats(GetText(cells[5]), GetText(cells[6]), GetText(cells[7]), GetText(cells[8]))
    ensures |r.history| == |AllIn(doc, ByClass("hnr_all"))| + |AllIn(doc, ByClass("hnr_all2"))|
    ensures r.history == ParseRows(AllIn(doc, ByClass("hnr_all")) + AllIn(doc, ByClass("hnr_all2")))
  {
    var info := Info(NoRank, "", NoStats, []);
    ParseHistory(doc, ParseTable(doc, info))
  }
}
