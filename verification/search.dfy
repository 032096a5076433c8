/**
 The search-listing extractor: one `Torrent` record per `box_torrent`
 container of a result page. Every field is pulled on its own and degrades to
 "" when the element it comes from is missing.
 */
module Search {
  import opened Wrappers
  import opened Strings
  import opened Html
  import opened Selector

  datatype Torrent = Torrent(
    id: string,
    title: string,
    altTitle: string,
    health: string,
    peers: string,
    seeds: string,
    size: string,
    uploaded: string,
    uploader: string)

  // ---------------------------------------------------------------------------
  // The id pattern `.*id=(\d*)`
  // ---------------------------------------------------------------------------

  /** The regex step of `extractId`. The pattern's `.` does not match a newline,
      so the list of all matches has one entry per line that holds "id="; the
      capture is used only when that list has exactly one entry. */
  function IdFromHref(href: string): (r: string)
    ensures forall i | 0 <= i < |r| :: IsDigit(r[i])
    ensures |LinesWith(Lines(href), "id=")| != 1 ==> r == ""
  {
    var hits := LinesWith(Lines(href), "id=");
    if |hits| == 1 then
      // the greedy `.*` runs to the last "id=", the greedy `\d*` takes every digit after it
      var p := LastIndex(hits[0], "id=").value;
      DigitPrefix(hits[0][p + 3..])
    else
      ""
  }

  /** On a one-line href the id is the maximal digit run after the last "id=",
      and "" when there is no "id=". */
  lemma IdFromOneLineHref(href: string)
    requires '\n' !in href
    ensures IdFromHref(href) == match LastIndex(href, "id=")
                                case None => ""
                                case Some(p) => DigitPrefix(href[p + 3..])
  {
    SingleLine(href);
    var hits := LinesWith([href], "id=");
    if Contains(href, "id=") {
      assert href in hits;
      assert hits == [href];
    } else {
      assert |hits| == 0;
    }
  }

  // ---------------------------------------------------------------------------
  // Field extractors
  // ---------------------------------------------------------------------------

  /** The `title` attribute, or "" when there is none. */
  function TitleAttr(element: Node): (r: string)
    ensures (exists i | 0 <= i < |element.attrs| :: element.attrs[i].key == "title") ==>
              r == FindAttr(element.attrs, "title").0
    ensures (forall i | 0 <= i < |element.attrs| :: element.attrs[i].key != "title") ==> r == ""
  {
    var (title, ok) := FindAttr(element.attrs, "title");
    if ok then title else ""
  }

  /** The `href` attribute, or "" when there is none. */
  function HrefAttr(element: Node): (r: string)
    ensures (exists i | 0 <= i < |element.attrs| :: element.attrs[i].key == "href") ==>
              r == FindAttr(element.attrs, "href").0
    ensures (forall i | 0 <= i < |element.attrs| :: element.attrs[i].key != "href") ==> r == ""
  {
    var (href, ok) := FindAttr(element.attrs, "href");
    if ok then href else ""
  }

  /** The title block: the first `torrent_txt`, or failing that the first `torrent_txt2`. */
  function GetTxtNode(n: Node): (r: Option<Node>)
    ensures FirstIn(n, ByClass("torrent_txt")).Some? ==> r == FirstIn(n, ByClass("torrent_txt"))
    ensures FirstIn(n, ByClass("torrent_txt")).None? ==> r == FirstIn(n, ByClass("torrent_txt2"))
    ensures r.Some? ==> HasClass(r.value, "torrent_txt") || HasClass(r.value, "torrent_txt2")
  {
    var node := GetElementByClass(n, "torrent_txt");
    if node.None? then GetElementByClass(n, "torrent_txt2") else node
  }

  /** The id in the href of the first anchor, "" without an anchor. */
  function ExtractId(n: Node): (r: string)
    ensures FirstIn(n, ByTag("a")).None? ==> r == ""
    ensures FirstIn(n, ByTag("a")).Some? ==> r == IdFromHref(HrefAttr(FirstIn(n, ByTag("a")).value))
    ensures forall i | 0 <= i < |r| :: IsDigit(r[i])
  {
    match GetElementByTag(n, "a")
    case None => ""
    case Some(a) => IdFromHref(HrefAttr(a))
  }

  /** The `title` of the first anchor, "" without an anchor. */
  function ExtractTitle(n: Node): (r: string)
    ensures FirstIn(n, ByTag("a")).None? ==> r == ""
    ensures FirstIn(n, ByTag("a")).Some? ==> r == TitleAttr(FirstIn(n, ByTag("a")).value)
  {
    match GetElementByTag(n, "a")
    case None => ""
    case Some(a) => TitleAttr(a)
  }

  /** The `title` of the first span under the first `siterank`. */
  function ExtractAltTitle(n: Node): (r: string)
    ensures FirstIn(n, ByClass("siterank")).None? ==> r == ""
    ensures FirstIn(n, ByClass("siterank")).Some? ==>
              var rank := FirstIn(n, ByClass("siterank")).value;
              && (FirstIn(rank, ByTag("span")).None? ==> r == "")
              && (FirstIn(rank, ByTag("span")).Some? ==> r == TitleAttr(FirstIn(rank, ByTag("span")).value))
  {
    match GetElementByClass(n, "siterank")
    case None => ""
    case Some(rank) =>
      match GetElementByTag(rank, "span")
      case None => ""
      case Some(span) => TitleAttr(span)
  }

  /** The text of the first node of the class; "" when there is none. */
  function ExtractBoxText(n: Node, className: string): (r: string)
    ensures FirstIn(n, ByClass(className)).None? ==> r == ""
    ensures FirstIn(n, ByClass(className)).Some? ==> r == GetText(FirstIn(n, ByClass(className)).value)
    ensures IsTrimmed(r)
  {
    TextOrEmpty(GetElementByClass(n, className))
  }

  /** The text of the first anchor inside the first node of the class; "" when
      either is missing, whatever other text the container holds. */
  function ExtractAnchorText(n: Node, className: string): (r: string)
    ensures FirstIn(n, ByClass(className)).None? ==> r == ""
    ensures FirstIn(n, ByClass(className)).Some? ==>
              var box := FirstIn(n, ByClass(className)).value;
              && (FirstIn(box, ByTag("a")).None? ==> r == "")
              && (FirstIn(box, ByTag("a")).Some? ==> r == GetText(FirstIn(box, ByTag("a")).value))
    ensures IsTrimmed(r)
  {
    match GetElementByClass(n, className)
    case None => ""
    case Some(box) => TextOrEmpty(GetElementByTag(box, "a"))
  }

  function ExtractHealth(n: Node): string {
    ExtractBoxText(n, "box_d2")
  }

  function ExtractPeers(n: Node): string {
    ExtractAnchorText(n, "box_l2")
  }

  function ExtractSeeds(n: Node): string {
    ExtractAnchorText(n, "box_s2")
  }

  function ExtractSize(n: Node): string {
    ExtractBoxText(n, "box_meret2")
  }

  function ExtractUploaded(n: Node): string {
    ExtractBoxText(n, "box_feltoltve2")
  }

  /** The text of the first `feltolto_szin` under the first `box_feltolto2`. */
  function ExtractUploader(n: Node): (r: string)
    ensures FirstIn(n, ByClass("box_feltolto2")).None? ==> r == ""
    ensures FirstIn(n, ByClass("box_feltolto2")).Some? ==>
              var box := FirstIn(n, ByClass("box_feltolto2")).value;
              && (AllIn(box, ByClass("feltolto_szin")) == [] ==> r == "")
              && (AllIn(box, ByClass("feltolto_szin")) != [] ==> r == GetText(AllIn(box, ByClass("feltolto_szin"))[0]))
    ensures IsTrimmed(r)
  {
    match GetElementByClass(n, "box_feltolto2")
    case None => ""
    case Some(box) =>
      var spans := GetElementsByClass(box, "feltolto_szin");
      if |spans| == 0 then "" else GetText(spans[0])
  }

  // ---------------------------------------------------------------------------
  // Listing
  // ---------------------------------------------------------------------------

  /** One record from one container. The id and titles come from the title block
      and are "" without it; the other six fields come from the container itself
      whether or not the title block exists. */
  function ParseTorrent(node: Node): (r: Torrent)
    ensures GetTxtNode(node).None? ==> r.id == "" && r.title == "" && r.altTitle == ""
    ensures GetTxtNode(node).Some? ==>
              var txt := GetTxtNode(node).value;
              r.id == ExtractId(txt) && r.title == ExtractTitle(txt) && r.altTitle == ExtractAltTitle(txt)
    ensures && r.health == ExtractHealth(node) && r.peers == ExtractPeers(node)
            && r.seeds == ExtractSeeds(node) && r.size == ExtractSize(node)
            && r.uploaded == ExtractUploaded(node) && r.uploader == ExtractUploader(node)
  {
    var t := Torrent("", "", "", "", "", "", "", "", "");
    var t := match GetTxtNode(node)
             case None => t
             case Some(txt) => t.(id := ExtractId(txt), title := ExtractTitle(txt), altTitle := ExtractAltTitle(txt));
    t.(health := ExtractHealth(node),
       peers := ExtractPeers(node),
       seeds := ExtractSeeds(node),
       size := ExtractSize(node),
       uploaded := ExtractUploaded(node),
       uploader := ExtractUploader(node))
  }

  /** The loop over the containers: one record each, in order. */
  function ParseEach(nodes: seq<Node>): (r: seq<Torrent>)
    ensures |r| == |nodes|
    ensures forall i | 0 <= i < |nodes| :: r[i] == ParseTorrent(nodes[i])
  {
    seq(|nodes|, i requires 0 <= i < |nodes| => ParseTorrent(nodes[i]))
  }

  /** The torrent list of a result page: exactly one record per `box_torrent`
      element, in pre-order. */
  function ParseTorrents(doc: Node): (r: seq<Torrent>)
    ensures |r| == |AllIn(doc, ByClass("box_torrent"))|
    ensures forall i | 0 <= i < |r| :: r[i] == ParseTorrent(AllIn(doc, ByClass("box_torrent"))[i])
  {
    ParseEach(GetElementsByClass(doc, "box_torrent"))
  }

  /** A page without any `box_torrent` gives an empty list, and only such a page does. */
  lemma NoContainersNoTorrents(doc: Node)
    ensures ParseTorrents(doc) == [] <==> forall m | m in PreOrder(doc) :: !HasClass(m, "box_torrent")
  {
    var all := AllIn(doc, ByClass("box_torrent"));
    if all != [] {
      assert all[0] in all;
    }
  }
}
