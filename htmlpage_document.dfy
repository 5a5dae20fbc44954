/**
 * How one HTML page becomes one Solr item: `getDocument`, `getContentToIndex`
 * and `getLog` of SolrHtmlpageIndexer, with the item's uid scheme.
 */
module HtmlpageDocument {
  import opened Wrappers
  import opened JavaLang

  /** SolrHtmlpageIndexer.SHORT_NAME */
  const ShortName: string := "hpg"
  /** HtmlPagePlugin.PLUGIN_NAME, the item type */
  const PluginName: string := "htmlpage"

  /** The record read from the page store (read-only here). */
  datatype HtmlPage = HtmlPage(id: Int32, description: string, htmlContent: string)

  /** The fields of a SolrItem that the indexer sets. */
  datatype SolrItem = SolrItem(
    url: string,
    uid: string,
    content: string,
    title: string,
    itemType: string,
    site: string)

  datatype IOException = IOException(message: string)

  /**
   * The HTML parser: from the text it is given, either the text its reader
   * will yield (tags stripped, entities decoded) or the exception it throws.
   */
  type HtmlParser = string -> Result<string, IOException>

  // ---------------------------------------------------------------------------
  // uid
  // ---------------------------------------------------------------------------

  /** `String.valueOf(id) + "_" + SHORT_NAME`. */
  function Uid(id: Int32): (uid: string)
    ensures |uid| >= 5
    ensures uid[|uid| - 4..] == "_hpg"
    ensures forall i :: 0 <= i < |uid| - 4 ==> IsDigit(uid[i]) || (i == 0 && uid[i] == '-')
  {
    Render(id as int) + "_" + ShortName
  }

  /** Reads the page id back from a uid of this indexer. */
  function ParseUid(uid: string): Option<Int32> {
    if |uid| >= 4 && uid[|uid| - 4..] == "_" + ShortName then ParseInt32(uid[..|uid| - 4])
    else None
  }

  lemma UidRoundTrip(id: Int32)
    ensures ParseUid(Uid(id)) == Some(id)
  {
    var uid := Uid(id);
    assert uid[..|uid| - 4] == Render(id as int);
    ParseInt32Render(id);
  }

  /** Every uid ParseUid accepts is the uid of the id it yields. */
  lemma ParseUidSound(uid: string, id: Int32)
    requires ParseUid(uid) == Some(id)
    ensures Uid(id) == uid
  {
    var digits := uid[..|uid| - 4];
    RenderParse(digits, id as int);
    assert uid == digits + uid[|uid| - 4..];
  }

  /** Distinct page ids give distinct uids. */
  lemma UidInjective(a: Int32, b: Int32)
    requires Uid(a) == Uid(b)
    ensures a == b
  {
    UidRoundTrip(a);
    UidRoundTrip(b);
  }

  // ---------------------------------------------------------------------------
  // Content handed to the HTML parser
  // ---------------------------------------------------------------------------

  /** `getContentToIndex`: the description, one space, then the HTML body. */
  function ContentToIndex(page: HtmlPage): (text: string)
    ensures |text| == |page.description| + 1 + |page.htmlContent|
    ensures text[..|page.description|] == page.description
    ensures text[|page.description|] == ' '
    ensures text[|page.description| + 1..] == page.htmlContent
  {
    page.description + " " + page.htmlContent
  }

  // ---------------------------------------------------------------------------
  // The parser's reader
  // ---------------------------------------------------------------------------

  /**
   * The `Reader` returned by the parser: it yields the characters of `text`
   * one by one, then -1.
   */
  class TextReader {
    const text: string
    var pos: nat
    var closed: bool

    ghost predicate Valid()
      reads this
    {
      pos <= |text|
    }

    /** The characters not read yet. */
    ghost function Remaining(): string
      reads this
      requires Valid()
    {
      text[pos..]
    }

    constructor (text: string)
      ensures Valid() && this.text == text && pos == 0 && !closed
    {
      this.text := text;
      pos := 0;
      closed := false;
    }

    /** `read()`: the next character as an int, or -1 at end of stream. */
    method Read() returns (c: int)
      requires Valid() && !closed
      modifies this
      ensures Valid() && !closed
      ensures old(pos) < |text| ==> c == text[old(pos)] as int && pos == old(pos) + 1
      ensures old(pos) == |text| ==> c == -1 && pos == old(pos)
      ensures Remaining() == if c == -1 then old(Remaining()) else old(Remaining())[1..]
    {
      if pos < |text| {
        c := text[pos] as int;
        pos := pos + 1;
      } else {
        c := -1;
      }
    }

    /** `close()`: no further reads; the position is left as it was. */
    method Close()
      requires Valid()
      modifies this
      ensures Valid() && closed && pos == old(pos)
      ensures Remaining() == old(Remaining())
    {
      closed := true;
    }
  }

  /**
   * The loop of `getDocument` that reads characters until -1, appending each
   * one to a buffer: the buffer ends up holding everything left in the reader.
   */
  method DrainReader(reader: TextReader) returns (sb: string)
    requires reader.Valid() && !reader.closed
    modifies reader
    ensures reader.Valid() && !reader.closed && reader.pos == |reader.text|
    ensures sb == old(reader.Remaining())
  {
    ghost var start := reader.pos;
    sb := "";
    var c := reader.Read();
    while c != -1
      invariant reader.Valid() && !reader.closed && start <= reader.pos
      invariant c == -1 ==> reader.pos == |reader.text| && sb == reader.text[start..]
      invariant c != -1 ==> start < reader.pos && c == reader.text[reader.pos - 1] as int
      invariant c != -1 ==> sb == reader.text[start..reader.pos - 1]
      decreases |reader.text| - reader.pos + (if c == -1 then 0 else 1)
    {
      sb := sb + [c as char];
      c := reader.Read();
    }
  }

  // ---------------------------------------------------------------------------
  // getDocument
  // ---------------------------------------------------------------------------

  /**
   * The item getDocument builds for `page`, or the exception it throws: the
   * specification GetDocument is proved against. It fails exactly when the
   * parser does, with the parser's exception, and the uid of the item it
   * builds reads back as the page id.
   */
  function DocumentOf(page: HtmlPage, url: string, site: string, parser: HtmlParser): (r: Result<SolrItem, IOException>)
    ensures r.Failure? <==> parser(ContentToIndex(page)).Failure?
    ensures r.Failure? ==> r.error == parser(ContentToIndex(page)).error
    ensures r.Success? ==> ParseUid(r.value.uid) == Some(page.id)
    ensures r.Success? ==> r.value.content == parser(ContentToIndex(page)).value
    ensures r.Success? ==> r.value.title == page.description && r.value.itemType == PluginName
    ensures r.Success? ==> r.value.url == url && r.value.site == site
  {
    UidRoundTrip(page.id);
    match parser(ContentToIndex(page))
    case Failure(e) => Failure(e)
    case Success(text) => Success(SolrItem(url, Uid(page.id), text, page.description, PluginName, site))
  }

  /**
   * `getDocument`: builds the item of one page, draining the parser's reader
   * into the content field.
   */
  method GetDocument(page: HtmlPage, url: string, site: string, parser: HtmlParser)
    returns (r: Result<SolrItem, IOException>)
    ensures r == DocumentOf(page, url, site, parser)
  {
    var uid := Uid(page.id);
    var contentToIndex := ContentToIndex(page);
    var parsed := parser(contentToIndex);
    if parsed.Failure? {
      return Failure(parsed.error);
    }
    var reader := new TextReader(parsed.value);
    var sb := DrainReader(reader);
    reader.Close();
    r := Success(SolrItem(url, uid, sb, page.description, PluginName, site));
  }

  // ---------------------------------------------------------------------------
  // getLog: the key of an item in the map index returns
  // ---------------------------------------------------------------------------

  /**
   * `getLog`: the log line that also serves as the item's key. For an item of
   * this indexer the uid starts at the fixed offset |LogPrefix|, and the line
   * always ends with the title and "<br/>".
   */
  function LogLine(item: SolrItem): (line: string)
    ensures item.itemType == PluginName ==>
      && |line| >= |LogPrefix| + |item.uid|
      && line[..|LogPrefix|] == LogPrefix
      && line[|LogPrefix|..|LogPrefix| + |item.uid|] == item.uid
    ensures |line| >= |item.title| + 5
    ensures line[|line| - 5 - |item.title|..] == item.title + "<br/>"
  {
    var line := "indexing " + item.itemType + " id : " + item.uid + " Title : " + item.title + "<br/>";
    assert item.itemType == PluginName ==> line == LogPrefix + item.uid + (" Title : " + item.title + "<br/>");
    line
  }

  /** What every log line of this indexer starts with. */
  const LogPrefix: string := "indexing " + PluginName + " id : "

  /**
   * Reads the page id back from a log line: after the fixed prefix, the
   * digits up to the first '_' (which opens "_hpg").
   */
  function IdOfLogLine(line: string): Option<Int32> {
    if |line| < |LogPrefix| || line[..|LogPrefix|] != LogPrefix then None
    else
      var rest := line[|LogPrefix|..];
      var k := IndexOf(rest, '_');
      if k < |rest| then ParseInt32(rest[..k]) else None
  }

  /** The id sits at a fixed place in the log line, whatever the title. */
  lemma LogLineIdRoundTrip(item: SolrItem, id: Int32)
    requires item.uid == Uid(id) && item.itemType == PluginName
    ensures IdOfLogLine(LogLine(item)) == Some(id)
  {
    var digits := Render(id as int);
    var tail := "_" + ShortName + " Title : " + item.title + "<br/>";
    var line := LogLine(item);
    assert line == LogPrefix + (digits + tail);
    assert line[..|LogPrefix|] == LogPrefix;
    assert line[|LogPrefix|..] == digits + tail;
    IndexOfAfterPrefix(digits, tail, '_');
    assert (digits + tail)[..|digits|] == digits;
    ParseInt32Render(id);
  }

  /** Items of distinct pages have distinct log lines, so none overwrites another. */
  lemma LogLinesDistinct(a: SolrItem, b: SolrItem, idA: Int32, idB: Int32)
    requires a.uid == Uid(idA) && a.itemType == PluginName
    requires b.uid == Uid(idB) && b.itemType == PluginName
    requires idA != idB
    ensures LogLine(a) != LogLine(b)
  {
    LogLineIdRoundTrip(a, idA);
    LogLineIdRoundTrip(b, idB);
  }
}
