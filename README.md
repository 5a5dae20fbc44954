# SolrHtmlpageIndexer, modelled in Dafny

The model covers `SolrHtmlpageIndexer`, the Lutece module class that turns the
enabled HTML pages of a portal into items for the Solr search plugin:

- `getDocument` builds one `SolrItem` from one `HtmlPage`:
  - the URL comes from the caller;
  - the uid is the page id in decimal followed by `_hpg`;
  - the content is everything the HTML parser's reader yields when it is given
    the description, one space and the HTML body;
  - the title is the description;
  - the type is the plugin name and the site is `SITE`.
- `getContentToIndex` builds the text handed to the parser.
- `getLog` builds the log line. `index` uses that line as the key of the item
  in the map it returns.
- `index` walks the enabled pages and fills a `HashMap` with one entry per page
  whose item could be built. A page whose build throws `IOException` is logged
  and skipped.
- `isEnable` compares the `htmlpage-solr.indexer.enable` property
  case-insensitively with `"true"`.

Files:

- `wrappers.dfy`: `Option` (Java's null) and `Result` (a value or a thrown exception).
- `java_lang.dfy`: module `JavaLang`. It holds what the class takes from
  `java.lang`, and the helpers the proofs use to read an id back:
  - the 32-bit `int` (`Int32`) and `String.valueOf(int)` (`Render`), both used
    by the class;
  - `equalsIgnoreCase` over ASCII letters, used by the class;
  - `Parse`, which reads a decimal rendering back, and `IndexOf`, the first
    index of a character. The class calls neither: they are proof helpers
    that read the page id back out of a uid or a key.
- `htmlpage_document.dfy`: module `HtmlpageDocument`. It holds the uid,
  `getContentToIndex`, the parser's reader (class `TextReader`), the drain
  loop, `getDocument` and `getLog`.
- `solr_htmlpage_indexer.dfy`: module `SolrHtmlpageIndexer`. It holds `index`,
  its specification `Fill` with the lemmas about it, and `isEnable`.

The host services are inputs:

- the enabled pages are a `seq<HtmlPage>`;
- the portal URL, the site name, the URL builder (`UrlItem`) and the HTML parser
  form an `Environment` value.

The parser is an opaque function from the text it is given to either the text
its reader yields or the `IOException` it throws. The URL builder is an opaque
function of the portal URL and the list of `addParameter` calls.

The map that `index` fills is a local `map<string, SolrItem>` variable that
each iteration reassigns. It is proved equal to the specification function
`Fill`. The key property follows from that:

- the uid (an optional `-`, digits, then `_hpg`) sits at a fixed offset in the
  log line;
- so `IdOfLogLine` recovers the page id from any key, whatever the title;
- so pages with distinct ids never share a key, and the map holds exactly one
  entry per successful build.

Three facts about the code shape the model:

- `getDocument` hands the whole text from `getContentToIndex` (the
  description, one space and the HTML body) to the parser (lines 181-183).
  The content is the parser's output for that whole text.
- `index` returns the map it filled (line 116) and writes nothing itself.
- `getDocument` receives the URL already built. `index` builds it from the
  portal URL with `UrlItem` (lines 99-101).

## Model

| member | source | states |
|---|---|---|
| JavaLang.NatDigits | src/java/fr/paris/lutece/plugins/htmlpage/modules/solr/search/SolrHtmlpageIndexer.java:177 | the decimal digits of a natural number are a non-empty digit string without a superfluous leading zero, starting with '0' exactly for 0 |
| JavaLang.Render | src/java/fr/paris/lutece/plugins/htmlpage/modules/solr/search/SolrHtmlpageIndexer.java:177 | `String.valueOf(int)` is non-empty, starts with '-' exactly for negative numbers, and otherwise holds only digits |
| JavaLang.NatDigitsRoundTrip | src/java/fr/paris/lutece/plugins/htmlpage/modules/solr/search/SolrHtmlpageIndexer.java:177 | reading back the digits of n gives n |
| JavaLang.DigitsValueRoundTrip | src/java/fr/paris/lutece/plugins/htmlpage/modules/solr/search/SolrHtmlpageIndexer.java:177 | every canonical digit string is the rendering of its value |
| JavaLang.ParseRender | src/java/fr/paris/lutece/plugins/htmlpage/modules/solr/search/SolrHtmlpageIndexer.java:177 | parsing the decimal rendering of any integer gives that integer back |
| JavaLang.RenderParse | src/java/fr/paris/lutece/plugins/htmlpage/modules/solr/search/SolrHtmlpageIndexer.java:177 | every string the parser accepts is the rendering of the number it yields (the other direction of the round trip) |
| JavaLang.RenderInjective | src/java/fr/paris/lutece/plugins/htmlpage/modules/solr/search/SolrHtmlpageIndexer.java:177 | distinct integers have distinct decimal renderings |
| HtmlpageDocument.Uid | src/java/fr/paris/lutece/plugins/htmlpage/modules/solr/search/SolrHtmlpageIndexer.java:177-178 | the uid ends with "_hpg" and before that holds only digits and possibly a leading '-' |
| HtmlpageDocument.UidRoundTrip | src/java/fr/paris/lutece/plugins/htmlpage/modules/solr/search/SolrHtmlpageIndexer.java:177-178 | the page id can be read back from its uid |
| HtmlpageDocument.ParseUidSound | src/java/fr/paris/lutece/plugins/htmlpage/modules/solr/search/SolrHtmlpageIndexer.java:177-178 | every string read as a uid of page id n is exactly the uid built for n |
| HtmlpageDocument.UidInjective | src/java/fr/paris/lutece/plugins/htmlpage/modules/solr/search/SolrHtmlpageIndexer.java:178 | distinct page ids give distinct uids |
| HtmlpageDocument.ContentToIndex | src/java/fr/paris/lutece/plugins/htmlpage/modules/solr/search/SolrHtmlpageIndexer.java:219-231 | the text for the parser is the description, then one space, then the HTML body, in that order and nothing else |
| HtmlpageDocument.TextReader.Read | src/java/fr/paris/lutece/plugins/htmlpage/modules/solr/search/SolrHtmlpageIndexer.java:191 | `read()` returns the next character as an int and advances, or -1 at end of stream without advancing |
| HtmlpageDocument.TextReader.Close | src/java/fr/paris/lutece/plugins/htmlpage/modules/solr/search/SolrHtmlpageIndexer.java:196 | `close()` marks the reader closed and leaves its position and unread characters as they were |
| HtmlpageDocument.DrainReader | src/java/fr/paris/lutece/plugins/htmlpage/modules/solr/search/SolrHtmlpageIndexer.java:188-194 | the read-until-minus-one loop appends exactly the characters left in the reader, in order, and stops at end of stream |
| HtmlpageDocument.DocumentOf | src/java/fr/paris/lutece/plugins/htmlpage/modules/solr/search/SolrHtmlpageIndexer.java:167-212 | the specification of `getDocument`: it fails exactly when the parser throws, carrying the parser's exception; a built item has the given URL, a uid that reads back as the page id, the parser's output as content, the description as title, the plugin name as type and the given site |
| HtmlpageDocument.GetDocument | src/java/fr/paris/lutece/plugins/htmlpage/modules/solr/search/SolrHtmlpageIndexer.java:167-212 | the method that drains the parser's reader returns exactly what `DocumentOf` specifies: the parser's exception, or the item whose content is everything the reader yields |
| HtmlpageDocument.LogLine | src/java/fr/paris/lutece/plugins/htmlpage/modules/solr/search/SolrHtmlpageIndexer.java:238-249 | for an item of this indexer the line starts with "indexing htmlpage id : " and the uid follows at that fixed offset; every line ends with the title and "<br/>" |
| HtmlpageDocument.LogLineIdRoundTrip | src/java/fr/paris/lutece/plugins/htmlpage/modules/solr/search/SolrHtmlpageIndexer.java:238-249 | the page id can be read back from the log line of its item, whatever the title holds |
| HtmlpageDocument.LogLinesDistinct | src/java/fr/paris/lutece/plugins/htmlpage/modules/solr/search/SolrHtmlpageIndexer.java:238-249 | items of pages with distinct ids have distinct log lines |
| SolrHtmlpageIndexer.PageUrlInjective | src/java/fr/paris/lutece/plugins/htmlpage/modules/solr/search/SolrHtmlpageIndexer.java:99-101 | when the id's decimal text can be read back out of a page URL, pages with distinct ids get distinct URLs |
| SolrHtmlpageIndexer.DecimalIdTextReadsBack | src/java/fr/paris/lutece/plugins/htmlpage/modules/solr/search/SolrHtmlpageIndexer.java:99-101 | a builder that writes `base?name=value&name=value` with the int parameter in decimal puts the page id's decimal text at the end of the URL, where it can be read back |
| SolrHtmlpageIndexer.DecimalPageUrlsDistinct | src/java/fr/paris/lutece/plugins/htmlpage/modules/solr/search/SolrHtmlpageIndexer.java:99-101 | with such a decimal builder, pages with distinct ids get distinct URLs |
| SolrHtmlpageIndexer.Index | src/java/fr/paris/lutece/plugins/htmlpage/modules/solr/search/SolrHtmlpageIndexer.java:88-117 | the returned map is the fold of put-or-skip over the pages; every entry is the item of one input page under its log line; every successful build has its key in the map; with distinct ids the map size is the number of successful builds and each such key maps to its page's item |
| SolrHtmlpageIndexer.BuildShape | src/java/fr/paris/lutece/plugins/htmlpage/modules/solr/search/SolrHtmlpageIndexer.java:99-108 | an item built in the loop carries its page's uid, the plugin type and the description as title, and its key yields the page id |
| SolrHtmlpageIndexer.FillComesFromPages | src/java/fr/paris/lutece/plugins/htmlpage/modules/solr/search/SolrHtmlpageIndexer.java:97-114 | every entry after the loop was there before or is the item of one of the pages, stored under its log line |
| SolrHtmlpageIndexer.FillHasEveryKey | src/java/fr/paris/lutece/plugins/htmlpage/modules/solr/search/SolrHtmlpageIndexer.java:97-114 | the keys after the loop are the keys before plus the keys of the successful builds |
| SolrHtmlpageIndexer.FillKeeps | src/java/fr/paris/lutece/plugins/htmlpage/modules/solr/search/SolrHtmlpageIndexer.java:108 | an entry whose key no remaining page produces is never overwritten |
| SolrHtmlpageIndexer.KeysOfIds | src/java/fr/paris/lutece/plugins/htmlpage/modules/solr/search/SolrHtmlpageIndexer.java:108 | every key put by the loop reads back as the id of one of the pages |
| SolrHtmlpageIndexer.FillKeepsEachItem | src/java/fr/paris/lutece/plugins/htmlpage/modules/solr/search/SolrHtmlpageIndexer.java:108 | with distinct ids, each successfully built item is still in the map at the end under its own key |
| SolrHtmlpageIndexer.KeysOfSize | src/java/fr/paris/lutece/plugins/htmlpage/modules/solr/search/SolrHtmlpageIndexer.java:108 | with distinct ids, the successful builds put pairwise distinct keys |
| SolrHtmlpageIndexer.FillSize | src/java/fr/paris/lutece/plugins/htmlpage/modules/solr/search/SolrHtmlpageIndexer.java:90-116 | with distinct ids the returned map has exactly one entry per successful build |
| SolrHtmlpageIndexer.FailedPageSkipped | src/java/fr/paris/lutece/plugins/htmlpage/modules/solr/search/SolrHtmlpageIndexer.java:105-113 | a page whose build throws leaves the result exactly as if it were absent from the list, and processing continues with the rest |
| SolrHtmlpageIndexer.IsEnable | src/java/fr/paris/lutece/plugins/htmlpage/modules/solr/search/SolrHtmlpageIndexer.java:119-122 | enabled exactly when the property is set, has four characters and spells "true" in any mix of upper and lower case; a missing property gives false |

## Left out

- `getName`, `getDescription` and `getVersion` only return configuration properties. That is configuration I/O, so they are not modelled.
- `getAdditionalFields` only returns null, so it is not modelled.
- The commented-out `getDocuments` is dead code, so it is not modelled.
- The page store (`HtmlPageHome.findEnabledHtmlPageList`) and the plugin lookup (`PluginService.getPlugin`) are replaced by the page sequence given as input.
- `AppPathService.getPortalUrl` and the `SITE` constant are values in `Environment`. The enable property is `IsEnable`'s own parameter. `HtmlPagePlugin` is not part of this model. The values of `PLUGIN_NAME` ("htmlpage") and `PARAM_XPAGE_APP` ("page") are written in as constants.
- The tag stripping and entity decoding of Lucene's `HTMLParser` are not part of this model. The parser is an opaque function that yields text or throws.
- A reader whose `read()` fails part-way through the stream (line 191), or whose `close()` fails after a complete drain (line 196), is modelled as the parser throwing before the drain starts: `TextReader.Read` and `TextReader.Close` never fail. In every case `getDocument` throws, the buffer is discarded and `index` skips the page.
- PageUrl: the URL is `UrlItem`'s opaque result for the portal URL after the two `addParameter` calls of lines 100-101; the builder is an input, so nothing more is stated about the URL than `PageUrlInjective` (distinct ids give distinct URLs when the id's decimal text can be read back from the URL; `DecimalPageUrlsDistinct` shows a decimal builder in `UrlItem`'s style meets this) and `BuildShape` (a built item carries `PageUrl` of its page).
- How `UrlItem` encodes and joins parameters is not modelled. The URL is an opaque function of the portal URL and the two `addParameter` calls.
- `AppLogService.error` has no effect on the result, so it is not modelled.
- Java strings are UTF-16 code units. The model's `char` is a Unicode scalar value, so unpaired surrogate halves cannot occur in the model. The drain copies every character unchanged in both.
- A null description or HTML body (which `StringBuffer.append` would write as "null"), or a null `SITE` (`lutece.name` not set, line 70), is not modelled. Page fields and `Environment.site` are always strings.
- IsEnable: it compares letters with ASCII case mapping only. Java's full Unicode case mapping is not modelled.
- Index: the map size equals the number of successful builds only when page ids are distinct, as they are for the page table's primary key. With a repeated id and the same description, the later item replaces the earlier one, and the model states that general case through `Fill`.
