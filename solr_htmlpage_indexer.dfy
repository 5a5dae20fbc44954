/**
 * SolrHtmlpageIndexer: the indexing pass over the enabled HTML pages and the
 * enable switch. Host services are inputs: the enabled pages come as a
 * sequence and the rest of the environment as an Environment value.
 */
module SolrHtmlpageIndexer {
  import opened Wrappers
  import opened JavaLang
  import opened HtmlpageDocument

  /** XPageAppService.PARAM_XPAGE_APP */
  const ParamXpageApp: string := "page"
  /** SolrHtmlpageIndexer.PARAMETER_HTMLPAGE_ID */
  const ParameterHtmlpageId: string := "htmlpage_id"

  /** One `UrlItem.addParameter` call, in its String and its int overload. */
  datatype UrlParameter = StringParameter(name: string, value: string) | IntParameter(name: string, intValue: Int32)

  /**
   * What the indexer reads from its host: the portal URL, the site name
   * (SITE), how UrlItem turns a base URL and parameters into a URL, and the
   * HTML parser.
   */
  datatype Environment = Environment(
    portalUrl: string,
    site: string,
    urlOf: (string, seq<UrlParameter>) -> string,
    parser: HtmlParser)

  /**
   * The URL of a page: what UrlItem makes of the portal URL after two
   * `addParameter` calls, first the application (the plugin name), then the
   * page id.
   */
  function PageUrl(env: Environment, id: Int32): string {
    env.urlOf(env.portalUrl, [StringParameter(ParamXpageApp, PluginName), IntParameter(ParameterHtmlpageId, id)])
  }

  /**
   * When the id's decimal text can be read back out of a page URL (as it can
   * from any builder that writes the int parameter in decimal), distinct
   * pages get distinct URLs.
   */
  lemma PageUrlInjective(env: Environment, idText: string -> string, a: Int32, b: Int32)
    requires forall x: Int32 :: idText(PageUrl(env, x)) == Render(x as int)
    requires PageUrl(env, a) == PageUrl(env, b)
    ensures a == b
  {
    assert Render(a as int) == Render(b as int);
    RenderInjective(a as int, b as int);
  }

  /** One parameter as `name=value`, an int value written in decimal. */
  function ParameterText(p: UrlParameter): string {
    match p
    case StringParameter(name, value) => name + "=" + value
    case IntParameter(name, value) => name + "=" + Render(value as int)
  }

  /** The parameters as `name=value` pairs joined with '&'. */
  function QueryText(ps: seq<UrlParameter>): string
    decreases |ps|
  {
    if ps == [] then ""
    else if |ps| == 1 then ParameterText(ps[0])
    else ParameterText(ps[0]) + "&" + QueryText(ps[1..])
  }

  /** A URL builder in UrlItem's style: `base?name=value&name=value`. */
  function DecimalQueryUrl(base: string, ps: seq<UrlParameter>): string {
    if ps == [] then base else base + "?" + QueryText(ps)
  }

  /** What a page URL from DecimalQueryUrl holds before the page id. */
  function PageUrlPrefix(portalUrl: string): string {
    portalUrl + "?" + ParamXpageApp + "=" + PluginName + "&" + ParameterHtmlpageId + "="
  }

  /** Reads the id's decimal text back out of a DecimalQueryUrl page URL. */
  function DecimalIdText(portalUrl: string, url: string): string {
    var prefix := PageUrlPrefix(portalUrl);
    if |url| >= |prefix| then url[|prefix|..] else ""
  }

  /** DecimalQueryUrl meets the hypothesis of PageUrlInjective. */
  lemma DecimalIdTextReadsBack(env: Environment, x: Int32)
    requires env.urlOf == DecimalQueryUrl
    ensures DecimalIdText(env.portalUrl, PageUrl(env, x)) == Render(x as int)
  {
    var ps := [StringParameter(ParamXpageApp, PluginName), IntParameter(ParameterHtmlpageId, x)];
    assert QueryText(ps[1..]) == ParameterText(ps[1]);
    assert PageUrl(env, x) == PageUrlPrefix(env.portalUrl) + Render(x as int);
  }

  /** With a decimal builder such as DecimalQueryUrl, distinct pages get distinct URLs. */
  lemma DecimalPageUrlsDistinct(env: Environment, a: Int32, b: Int32)
    requires env.urlOf == DecimalQueryUrl
    requires a != b
    ensures PageUrl(env, a) != PageUrl(env, b)
  {
    var idText := (url: string) => DecimalIdText(env.portalUrl, url);
    forall x: Int32
      ensures idText(PageUrl(env, x)) == Render(x as int)
    {
      DecimalIdTextReadsBack(env, x);
    }
    if PageUrl(env, a) == PageUrl(env, b) {
      PageUrlInjective(env, idText, a, b);
    }
  }

  /**
   * What one iteration of `index` builds for `page`: DocumentOf (the
   * specification of GetDocument) applied to the page's URL and the host's
   * site and parser. It is the loop's view of getDocument, not a third model.
   */
  function Build(env: Environment, page: HtmlPage): Result<SolrItem, IOException> {
    DocumentOf(page, PageUrl(env, page.id), env.site, env.parser)
  }

  /** The key under which `index` stores the item of `page`. */
  function KeyOf(env: Environment, page: HtmlPage): string
    requires Build(env, page).Success?
  {
    LogLine(Build(env, page).value)
  }

  /** One iteration of `index`: put the built item, or skip on IOException. */
  function Step(items: map<string, SolrItem>, env: Environment, page: HtmlPage): map<string, SolrItem> {
    match Build(env, page)
    case Success(item) => items[LogLine(item) := item]
    case Failure(_) => items
  }

  /** The map `index` holds after processing `pages` starting from `items`. */
  function Fill(items: map<string, SolrItem>, env: Environment, pages: seq<HtmlPage>): map<string, SolrItem>
    decreases |pages|
  {
    if pages == [] then items else Fill(Step(items, env, pages[0]), env, pages[1..])
  }

  /** The keys the successful builds of `pages` put. */
  function KeysOf(env: Environment, pages: seq<HtmlPage>): set<string>
    decreases |pages|
  {
    if pages == [] then {}
    else (if Build(env, pages[0]).Success? then {KeyOf(env, pages[0])} else {}) + KeysOf(env, pages[1..])
  }

  /** The number of pages whose build succeeds. */
  function SuccessCount(env: Environment, pages: seq<HtmlPage>): nat
    decreases |pages|
  {
    if pages == [] then 0
    else (if Build(env, pages[0]).Success? then 1 else 0) + SuccessCount(env, pages[1..])
  }

  /** Page ids are unique, as they are for the records of the page table. */
  predicate DistinctIds(pages: seq<HtmlPage>) {
    forall i, j :: 0 <= i < j < |pages| ==> pages[i].id != pages[j].id
  }

  // ---------------------------------------------------------------------------
  // index
  // ---------------------------------------------------------------------------

  /**
   * `index`: one map entry, keyed by its log line, for every enabled page
   * whose item can be built; a page whose build throws is skipped.
   */
  method Index(env: Environment, pages: seq<HtmlPage>) returns (items: map<string, SolrItem>)
    ensures items == Fill(map[], env, pages)
    ensures forall key :: key in items ==> BuiltFrom(env, pages, key, items[key])
    ensures forall i :: 0 <= i < |pages| && Build(env, pages[i]).Success? ==> KeyOf(env, pages[i]) in items
    ensures DistinctIds(pages) ==> |items| == SuccessCount(env, pages)
    ensures DistinctIds(pages) ==> forall i :: 0 <= i < |pages| && Build(env, pages[i]).Success? ==>
      items[KeyOf(env, pages[i])] == Build(env, pages[i]).value
  {
    items := map[];
    var i := 0;
    while i < |pages|
      invariant 0 <= i <= |pages|
      invariant Fill(items, env, pages[i..]) == Fill(map[], env, pages)
    {
      var page := pages[i];
      var url := PageUrl(env, page.id);
      var doc := GetDocument(page, url, env.site, env.parser);
      match doc {
        case Success(item) =>
          items := items[LogLine(item) := item];
        case Failure(_) =>
          // the exception is logged and the page skipped
      }
      assert pages[i..][1..] == pages[i + 1..];
      i := i + 1;
    }
    assert pages[i..] == [];
    FillComesFromPages(map[], env, pages);
    FillHasEveryKey(map[], env, pages);
    if DistinctIds(pages) {
      FillSize(env, pages);
      forall i | 0 <= i < |pages| && Build(env, pages[i]).Success?
        ensures items[KeyOf(env, pages[i])] == Build(env, pages[i]).value
      {
        FillKeepsEachItem(map[], env, pages, i);
      }
    }
  }

  // ---------------------------------------------------------------------------
  // Properties of the indexing pass
  // ---------------------------------------------------------------------------

  /** The items index builds carry the page's uid and the plugin type. */
  lemma BuildShape(env: Environment, page: HtmlPage)
    requires Build(env, page).Success?
    ensures Build(env, page).value.uid == Uid(page.id)
    ensures Build(env, page).value.itemType == PluginName
    ensures Build(env, page).value.title == page.description
    ensures Build(env, page).value.url == PageUrl(env, page.id)
    ensures IdOfLogLine(KeyOf(env, page)) == Some(page.id)
  {
    LogLineIdRoundTrip(Build(env, page).value, page.id);
  }

  /** `item` is the item of one of `pages`, stored under its own log line. */
  predicate BuiltFrom(env: Environment, pages: seq<HtmlPage>, key: string, item: SolrItem) {
    exists i :: 0 <= i < |pages| && Build(env, pages[i]) == Success(item) && key == LogLine(item)
  }

  /** Every entry of the result was already there or was built from one of `pages`. */
  lemma {:induction false} FillComesFromPages(items: map<string, SolrItem>, env: Environment, pages: seq<HtmlPage>)
    ensures forall key :: key in Fill(items, env, pages) ==>
      (key in items && Fill(items, env, pages)[key] == items[key])
      || BuiltFrom(env, pages, key, Fill(items, env, pages)[key])
    decreases |pages|
  {
    if pages != [] {
      var next := Step(items, env, pages[0]);
      FillComesFromPages(next, env, pages[1..]);
      var result := Fill(items, env, pages);
      assert result == Fill(next, env, pages[1..]);
      forall key | key in result
        ensures (key in items && result[key] == items[key]) || BuiltFrom(env, pages, key, result[key])
      {
        if BuiltFrom(env, pages[1..], key, result[key]) {
          var i :| 0 <= i < |pages[1..]| && Build(env, pages[1..][i]) == Success(result[key]) && key == LogLine(result[key]);
          assert pages[1..][i] == pages[i + 1];
        } else {
          assert key in next && result[key] == next[key];
          match Build(env, pages[0])
          case Success(item) =>
            if key == LogLine(item) {
              assert Build(env, pages[0]) == Success(result[key]);
            }
          case Failure(_) =>
        }
      }
    }
  }

  /** Every successful build leaves its key in the result. */
  lemma {:induction false} FillHasEveryKey(items: map<string, SolrItem>, env: Environment, pages: seq<HtmlPage>)
    ensures items.Keys + KeysOf(env, pages) == Fill(items, env, pages).Keys
    ensures forall i :: 0 <= i < |pages| && Build(env, pages[i]).Success? ==> KeyOf(env, pages[i]) in Fill(items, env, pages)
    decreases |pages|
  {
    if pages != [] {
      FillHasEveryKey(Step(items, env, pages[0]), env, pages[1..]);
      forall i | 0 <= i < |pages| && Build(env, pages[i]).Success?
        ensures KeyOf(env, pages[i]) in Fill(items, env, pages)
      {
        if i > 0 {
          assert pages[1..][i - 1] == pages[i];
        }
      }
    }
  }

  /** An entry whose key no later page produces survives the rest of the pass. */
  lemma {:induction false} FillKeeps(items: map<string, SolrItem>, env: Environment, pages: seq<HtmlPage>, key: string)
    requires key in items && key !in KeysOf(env, pages)
    ensures key in Fill(items, env, pages) && Fill(items, env, pages)[key] == items[key]
    decreases |pages|
  {
    if pages != [] {
      FillKeeps(Step(items, env, pages[0]), env, pages[1..], key);
    }
  }

  /** The keys of later pages carry the ids of those pages. */
  lemma {:induction false} KeysOfIds(env: Environment, pages: seq<HtmlPage>, key: string)
    requires key in KeysOf(env, pages)
    ensures exists i :: 0 <= i < |pages| && IdOfLogLine(key) == Some(pages[i].id)
    decreases |pages|
  {
    if Build(env, pages[0]).Success? && key == KeyOf(env, pages[0]) {
      BuildShape(env, pages[0]);
    } else {
      KeysOfIds(env, pages[1..], key);
      var i :| 0 <= i < |pages[1..]| && IdOfLogLine(key) == Some(pages[1..][i].id);
      assert pages[1..][i] == pages[i + 1];
    }
  }

  /** With distinct ids, no later page overwrites the entry of an earlier one. */
  lemma {:induction false} FillKeepsEachItem(items: map<string, SolrItem>, env: Environment, pages: seq<HtmlPage>, i: nat)
    requires DistinctIds(pages)
    requires i < |pages| && Build(env, pages[i]).Success?
    ensures KeyOf(env, pages[i]) in Fill(items, env, pages)
    ensures Fill(items, env, pages)[KeyOf(env, pages[i])] == Build(env, pages[i]).value
    decreases |pages|
  {
    var rest := pages[1..];
    assert DistinctIds(rest) by {
      forall a, b | 0 <= a < b < |rest| ensures rest[a].id != rest[b].id {
        assert rest[a] == pages[a + 1] && rest[b] == pages[b + 1];
      }
    }
    if i == 0 {
      var key := KeyOf(env, pages[0]);
      if key in KeysOf(env, rest) {
        KeysOfIds(env, rest, key);
        var j :| 0 <= j < |rest| && IdOfLogLine(key) == Some(rest[j].id);
        BuildShape(env, pages[0]);
        assert false;
      }
      FillKeeps(Step(items, env, pages[0]), env, rest, key);
    } else {
      assert rest[i - 1] == pages[i];
      FillKeepsEachItem(Step(items, env, pages[0]), env, rest, i - 1);
    }
  }

  /** With distinct ids, the successful builds put pairwise distinct keys. */
  lemma {:induction false} KeysOfSize(env: Environment, pages: seq<HtmlPage>)
    requires DistinctIds(pages)
    ensures |KeysOf(env, pages)| == SuccessCount(env, pages)
    decreases |pages|
  {
    if pages != [] {
      var rest := pages[1..];
      assert DistinctIds(rest) by {
        forall a, b | 0 <= a < b < |rest| ensures rest[a].id != rest[b].id {
          assert rest[a] == pages[a + 1] && rest[b] == pages[b + 1];
        }
      }
      KeysOfSize(env, rest);
      if Build(env, pages[0]).Success? {
        var key := KeyOf(env, pages[0]);
        if key in KeysOf(env, rest) {
          KeysOfIds(env, rest, key);
          var j :| 0 <= j < |rest| && IdOfLogLine(key) == Some(rest[j].id);
          BuildShape(env, pages[0]);
          assert false;
        }
      }
    }
  }

  /** With distinct ids the map holds exactly one entry per successful build. */
  lemma FillSize(env: Environment, pages: seq<HtmlPage>)
    requires DistinctIds(pages)
    ensures |Fill(map[], env, pages)| == SuccessCount(env, pages)
  {
    FillHasEveryKey(map[], env, pages);
    KeysOfSize(env, pages);
    assert Fill(map[], env, pages).Keys == KeysOf(env, pages);
  }

  /** A page whose build throws changes nothing; the pass goes on with the rest. */
  lemma {:induction false} FailedPageSkipped(
    items: map<string, SolrItem>, env: Environment, before: seq<HtmlPage>, page: HtmlPage, after: seq<HtmlPage>)
    requires Build(env, page).Failure?
    ensures Fill(items, env, before + [page] + after) == Fill(items, env, before + after)
    decreases |before|
  {
    if before == [] {
      assert before + [page] + after == [page] + after;
      assert before + after == after;
      assert ([page] + after)[1..] == after;
    } else {
      FailedPageSkipped(Step(items, env, before[0]), env, before[1..], page, after);
      assert (before + [page] + after)[1..] == before[1..] + [page] + after;
      assert (before + after)[1..] == before[1..] + after;
    }
  }

  // ---------------------------------------------------------------------------
  // isEnable
  // ---------------------------------------------------------------------------

  /**
   * `isEnable`: `"true".equalsIgnoreCase(property)`, where `property` is the
   * value of htmlpage-solr.indexer.enable (None when it is not set).
   */
  function IsEnable(property: Option<string>): (enabled: bool)
    ensures enabled <==>
      && property.Some?
      && |property.value| == 4
      && property.value[0] in {'t', 'T'}
      && property.value[1] in {'r', 'R'}
      && property.value[2] in {'u', 'U'}
      && property.value[3] in {'e', 'E'}
  {
    EqualsIgnoreCase("true", property)
  }
}
