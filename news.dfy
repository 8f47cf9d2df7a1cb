/**
 * The news fetcher (`buscar_noticias`): the topic-to-query table, the feed
 * URL, and the extraction of at most `quantidade` items from the parsed
 * feed. The HTTP request and the XML parser are a service the model is
 * given (`feed`), which answers a URL with a network failure or with a
 * status code and a parsed document.
 */
module News {
  import opened Wrappers

  /** One child element of an RSS `item`: absent, or present with its text (`None` for an empty element). */
  datatype Child = Absent | Present(text: Option<string>)

  /** An RSS `item` element, as far as the bot looks at it. */
  datatype FeedItem = FeedItem(title: Child, link: Child, description: Child)

  /** What `ET.fromstring` and `findall('.//item')` produce: a parse error or the items in document order. */
  datatype Document = Malformed | Document(items: seq<FeedItem>)

  /** The outcome of the HTTP GET: an exception (network error, timeout) or a response. */
  datatype FeedOutcome = Unreachable | Response(status: int, body: Document)

  /** A record of the returned list; a field is `None` where ElementTree's `.text` is `None`. */
  datatype NewsItem = NewsItem(title: Option<string>, link: Option<string>, description: Option<string>)

  /** The search query used for each known topic. */
  const Queries: map<string, string> := map[
    "Esportes" := "esportes+futebol+brasil OR basquete OR volei",
    "Games" := "games+jogos+videogame OR playstation OR xbox OR nintendo",
    "Entretenimento" := "entretenimento+cinema+series OR filmes OR netflix",
    "Tecnologia" := "tecnologia+tech OR smartphones OR inteligencia+artificial"
  ]

  /** `queries.get(tema, tema)`. */
  function QueryFor(tema: string): string {
    if tema in Queries then Queries[tema] else tema
  }

  /** The Google News RSS search URL for a query (the query is inserted as it is, not URL-encoded). */
  function FeedUrl(query: string): string {
    "https://news.google.com/rss/search?q=" + query + "&hl=pt-BR&gl=BR&ceid=BR:pt-419"
  }

  /** Every known topic has its fixed query; any other topic is its own query. */
  lemma QueryTable(tema: string)
    ensures QueryFor("Esportes") == "esportes+futebol+brasil OR basquete OR volei"
    ensures QueryFor("Games") == "games+jogos+videogame OR playstation OR xbox OR nintendo"
    ensures QueryFor("Entretenimento") == "entretenimento+cinema+series OR filmes OR netflix"
    ensures QueryFor("Tecnologia") == "tecnologia+tech OR smartphones OR inteligencia+artificial"
    ensures tema !in {"Esportes", "Games", "Entretenimento", "Tecnologia"} ==> QueryFor(tema) == tema
  {
  }

  /** The URL determines the query: different queries are different requests. */
  lemma FeedUrlInjective(q1: string, q2: string)
    requires FeedUrl(q1) == FeedUrl(q2)
    ensures q1 == q2
  {
    var prefix := "https://news.google.com/rss/search?q=";
    var suffix := "&hl=pt-BR&gl=BR&ceid=BR:pt-419";
    assert |q1| == |q2|;
    assert q1 == FeedUrl(q1)[|prefix|..|prefix| + |q1|];
    assert q2 == FeedUrl(q2)[|prefix|..|prefix| + |q2|];
  }

  /** `item.find(tag).text if item.find(tag) is not None else ''`. */
  function FieldText(c: Child): Option<string> {
    match c
    case Absent => Some("")
    case Present(t) => t
  }

  /** The record built for one item. */
  function ToNewsItem(item: FeedItem): NewsItem {
    NewsItem(FieldText(item.title), FieldText(item.link), FieldText(item.description))
  }

  /** How many elements Python's slice `xs[:q]` keeps from a list of length `len`. */
  function SliceStop(len: nat, q: int): (n: nat)
    ensures n <= len
  {
    if q >= 0 then (if q <= len then q else len)
    else if len + q >= 0 then len + q else 0
  }

  /** For the non-negative quantities the bot passes, `xs[:q]` keeps min(len, q) elements. */
  lemma SliceStopMin(len: nat, q: nat)
    ensures SliceStop(len, q) <= q && SliceStop(len, q) <= len
    ensures SliceStop(len, q) == q || SliceStop(len, q) == len
  {
  }

  /** The records for the first `SliceStop(|items|, q)` items, in document order. */
  function Extracted(items: seq<FeedItem>, q: int): (r: seq<NewsItem>)
    ensures |r| == SliceStop(|items|, q)
    ensures forall i :: 0 <= i < |r| ==> r[i] == ToNewsItem(items[i])
  {
    seq(SliceStop(|items|, q), i requires 0 <= i < SliceStop(|items|, q) => ToNewsItem(items[i]))
  }

  /** The list `buscar_noticias` returns for a given outcome of the request. */
  function NewsOf(outcome: FeedOutcome, q: int): seq<NewsItem> {
    if outcome.Response? && outcome.status == 200 && outcome.body.Document? then Extracted(outcome.body.items, q)
    else []
  }

  /** The loop over `root.findall('.//item')[:quantidade]` that appends one record per item. */
  method ExtractItems(items: seq<FeedItem>, quantidade: int) returns (noticias: seq<NewsItem>)
    ensures |noticias| == SliceStop(|items|, quantidade)
    ensures forall i :: 0 <= i < |noticias| ==> noticias[i] == ToNewsItem(items[i])
    ensures noticias == Extracted(items, quantidade)
  {
    var selected := items[..SliceStop(|items|, quantidade)];
    noticias := [];
    var k := 0;
    while k < |selected|
      invariant 0 <= k <= |selected|
      invariant |noticias| == k
      invariant forall i :: 0 <= i < k ==> noticias[i] == ToNewsItem(items[i])
    {
      var item := selected[k];
      var titulo := FieldText(item.title);
      var link := FieldText(item.link);
      var descricao := FieldText(item.description);
      noticias := noticias + [NewsItem(titulo, link, descricao)];
      k := k + 1;
    }
  }

  /** `buscar_noticias(tema, quantidade)`: one request, and `[]` on any failure. */
  method FetchNews(tema: string, quantidade: int, feed: string -> FeedOutcome) returns (noticias: seq<NewsItem>)
    ensures noticias == NewsOf(feed(FeedUrl(QueryFor(tema))), quantidade)
  {
    var query := QueryFor(tema);
    var url := FeedUrl(query);
    var response := feed(url);
    if response.Response? && response.status == 200 {
      if response.body.Malformed? {
        return [];
      }
      noticias := ExtractItems(response.body.items, quantidade);
      return;
    }
    return [];
  }

  /** A network error, a non-200 status or a parse error yields no news. */
  lemma NewsOfFailure(outcome: FeedOutcome, q: int)
    requires !(outcome.Response? && outcome.status == 200 && outcome.body.Document?)
    ensures NewsOf(outcome, q) == []
  {
  }

  /**
   * On a parsed 200 response with M items and a quantity Q >= 0, the result has
   * min(M, Q) records, the i-th made from the i-th item, and a missing child
   * element becomes the empty string.
   */
  lemma NewsOfSuccess(items: seq<FeedItem>, q: nat)
    ensures var r := NewsOf(Response(200, Document(items)), q);
      && |r| == (if q <= |items| then q else |items|)
      && (forall i :: 0 <= i < |r| ==> r[i] == ToNewsItem(items[i]))
      && (forall i :: 0 <= i < |r| && items[i].title.Absent? ==> r[i].title == Some(""))
      && (forall i :: 0 <= i < |r| && items[i].link.Absent? ==> r[i].link == Some(""))
      && (forall i :: 0 <= i < |r| && items[i].description.Absent? ==> r[i].description == Some(""))
  {
  }

  /** Never more records than requested, whatever happens. */
  lemma NewsOfBound(outcome: FeedOutcome, q: nat)
    ensures |NewsOf(outcome, q)| <= q
  {
  }
}
