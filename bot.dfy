/**
 * The orchestration of one run (`main`): check the API key, authenticate,
 * pick a topic, fetch news (retrying once with a different topic when the
 * first fetch is empty), generate the article and publish it under three
 * labels when both its title and its body are non-empty.
 *
 * The three services are given to the model as functions (`feed`,
 * `gemini`, `blogger`), authentication as its outcome (`authOk`), and
 * `random.choice` as a nondeterministic choice (`:|`), so every property
 * below holds whichever topics are drawn.
 */
module Bot {
  import opened Wrappers
  import opened PyStr
  import opened News
  import opened Article

  const BlogId: string := "4602463746754711403"

  /** The blog's topics, in the order the program lists them. */
  const Temas: seq<string> := ["Esportes", "Games", "Entretenimento", "Tecnologia"]

  /** `quantidade=3` in both calls of `buscar_noticias`. */
  const NewsPerRun: nat := 3

  /** `[t for t in temas if t != tema]`. */
  function OtherTopics(temas: seq<string>, tema: string): (r: seq<string>)
    ensures forall t :: t in r <==> t in temas && t != tema
    ensures |r| <= |temas|
    decreases |temas|
  {
    if temas == [] then []
    else (if temas[0] != tema then [temas[0]] else []) + OtherTopics(temas[1..], tema)
  }

  /** For a topic of the blog there are three others to retry with. */
  lemma OtherTopicsOfTemas(tema: string)
    requires tema in Temas
    ensures |OtherTopics(Temas, tema)| == 3
  {
    assert Temas[1..] == ["Games", "Entretenimento", "Tecnologia"];
    assert Temas[1..][1..] == ["Entretenimento", "Tecnologia"];
    assert Temas[1..][1..][1..] == ["Tecnologia"];
    assert Temas[1..][1..][1..][1..] == [];
  }

  /** `[tema.lower(), 'vivimundo', 'notícias']`. */
  function Labels(tema: string): seq<string> {
    [Lower(tema), "vivimundo", "notícias"]
  }

  /** Different topics of the blog send different feed requests. */
  lemma TemasQueriesDistinct(t1: string, t2: string)
    requires t1 in Temas && t2 in Temas && t1 != t2
    ensures FeedUrl(QueryFor(t1)) != FeedUrl(QueryFor(t2))
  {
    QueryTable(t1);
    if FeedUrl(QueryFor(t1)) == FeedUrl(QueryFor(t2)) {
      FeedUrlInjective(QueryFor(t1), QueryFor(t2));
    }
  }

  /** The `posts().insert` call: the blog and the post body. */
  datatype PostRequest = PostRequest(blogId: string, kind: string, title: string, content: string, labels: seq<string>)

  function MakePost(titulo: string, conteudo: string, labels: seq<string>): PostRequest {
    PostRequest(BlogId, "blogger#post", titulo, conteudo, labels)
  }

  /** `publicar_post`: true when the insert call returned, false when it raised. */
  method PublishPost(titulo: string, conteudo: string, labels: seq<string>, blogger: PostRequest -> bool) returns (sucesso: bool)
    ensures sucesso == blogger(PostRequest(BlogId, "blogger#post", titulo, conteudo, labels))
  {
    var post := MakePost(titulo, conteudo, labels);
    sucesso := blogger(post);
  }

  /** How a run ends, one case per message `main` prints last. */
  datatype Outcome = MissingApiKey | AuthFailed | NoNews | GenerationFailed | PublishFailed | Published

  /** One call of `buscar_noticias`: the topic asked for and the list returned. */
  datatype Fetch = Fetch(tema: string, news: seq<NewsItem>)

  /** What a run did: its end, the fetches in order, the prompt sent (if any) and the post submitted (if any). */
  datatype Run = Run(outcome: Outcome, fetches: seq<Fetch>, prompt: Option<Prompt>, post: Option<PostRequest>)

  /** `if not GEMINI_API_KEY`: the variable is unset or empty. */
  predicate KeyConfigured(apiKey: Option<string>) {
    apiKey.Some? && apiKey.value != ""
  }

  /** `if titulo and conteudo`: generation succeeded with a non-empty title and body. */
  predicate Publishable(draft: Option<Draft>) {
    draft.Some? && draft.value.title != "" && draft.value.body != ""
  }

  /** The fetch phase: at most one retry, only after an empty first fetch, with another topic of the blog. */
  ghost predicate FetchesSpec(fetches: seq<Fetch>, feed: string -> FeedOutcome) {
    && 1 <= |fetches| <= 2
    && fetches[0].tema in Temas
    && (|fetches| == 2 <==> fetches[0].news == [])
    && (|fetches| == 2 ==> fetches[1].tema in Temas && fetches[1].tema != fetches[0].tema)
    && (forall k :: 0 <= k < |fetches| ==>
          fetches[k].news == NewsOf(feed(FeedUrl(QueryFor(fetches[k].tema))), NewsPerRun))
  }

  /** After the fetch phase: generate from the last fetch when it found news, publish only a non-empty title and body. */
  ghost predicate ArticleSpec(run: Run, last: Fetch, gemini: Prompt -> GenReply, blogger: PostRequest -> bool) {
    if last.news == [] then run.outcome == NoNews && run.prompt == None && run.post == None
    else
      var prompt := Prompt(ContextOf(last.tema, last.news));
      var draft := DraftOf(gemini(prompt));
      && run.prompt == Some(prompt)
      && if !Publishable(draft) then run.outcome == GenerationFailed && run.post == None
         else
           var post := MakePost(draft.value.title, draft.value.body, Labels(last.tema));
           && run.post == Some(post)
           && run.outcome == (if blogger(post) then Published else PublishFailed)
  }

  /** What every run of `main` satisfies, for the given environment. */
  ghost predicate RunSpec(run: Run, apiKey: Option<string>, authOk: bool,
                          feed: string -> FeedOutcome, gemini: Prompt -> GenReply, blogger: PostRequest -> bool)
  {
    if !KeyConfigured(apiKey) then run == Run(MissingApiKey, [], None, None)
    else if !authOk then run == Run(AuthFailed, [], None, None)
    else FetchesSpec(run.fetches, feed) && ArticleSpec(run, run.fetches[|run.fetches| - 1], gemini, blogger)
  }

  /** `random.choice(TEMAS)`: any topic of the blog. */
  method DrawTopic() returns (tema: string)
    ensures tema in Temas
  {
    assert "Esportes" in Temas;
    tema :| tema in Temas;
  }

  /** `random.choice([t for t in TEMAS if t != tema])`: any other topic of the blog. */
  method DrawOtherTopic(first: string) returns (tema: string)
    requires first in Temas
    ensures tema in Temas && tema != first
  {
    var others := OtherTopics(Temas, first);
    OtherTopicsOfTemas(first);
    assert others[0] in others;
    tema :| tema in others;
  }

  /** The topic draw and the news fetch of `main`, with its one retry. */
  method FetchWithRetry(feed: string -> FeedOutcome) returns (fetches: seq<Fetch>)
    ensures FetchesSpec(fetches, feed)
  {
    var tema := DrawTopic();
    var noticias := FetchNews(tema, NewsPerRun, feed);
    fetches := [Fetch(tema, noticias)];

    if noticias == [] {
      tema := DrawOtherTopic(tema);
      noticias := FetchNews(tema, NewsPerRun, feed);
      fetches := fetches + [Fetch(tema, noticias)];
    }
  }

  /** The part of `main` after the fetches: generate from the last fetch, then publish under the topic's labels. */
  method GenerateAndPublish(fetches: seq<Fetch>, gemini: Prompt -> GenReply, blogger: PostRequest -> bool)
    returns (run: Run)
    requires |fetches| >= 1
    ensures run.fetches == fetches
    ensures ArticleSpec(run, run.fetches[|run.fetches| - 1], gemini, blogger)
  {
    var last := fetches[|fetches| - 1];
    var tema, noticias := last.tema, last.news;
    if noticias == [] {
      return Run(NoNews, fetches, None, None);
    }

    var draft := GenerateArticle(tema, noticias, gemini);
    var prompt := Prompt(ContextOf(tema, noticias));
    if !Publishable(draft) {
      return Run(GenerationFailed, fetches, Some(prompt), None);
    }

    var labels := Labels(tema);
    var sucesso := PublishPost(draft.value.title, draft.value.body, labels, blogger);
    var post := MakePost(draft.value.title, draft.value.body, labels);
    run := Run(if sucesso then Published else PublishFailed, fetches, Some(prompt), Some(post));
  }

  /** `main()`. */
  method RunBot(apiKey: Option<string>, authOk: bool,
                feed: string -> FeedOutcome, gemini: Prompt -> GenReply, blogger: PostRequest -> bool)
    returns (run: Run)
    ensures RunSpec(run, apiKey, authOk, feed, gemini, blogger)
  {
    if !KeyConfigured(apiKey) {
      run := Run(MissingApiKey, [], None, None);
    } else if !authOk {
      run := Run(AuthFailed, [], None, None);
    } else {
      var fetches := FetchWithRetry(feed);
      run := GenerateAndPublish(fetches, gemini, blogger);
    }
  }

  // ---------------------------------------------------------------------
  // Consequences of the run specification
  // ---------------------------------------------------------------------

  /** The topic is retried at most once, only after an empty fetch, and the retry uses another topic of the blog. */
  lemma AtMostOneRetry(run: Run, apiKey: Option<string>, authOk: bool,
                       feed: string -> FeedOutcome, gemini: Prompt -> GenReply, blogger: PostRequest -> bool)
    requires RunSpec(run, apiKey, authOk, feed, gemini, blogger)
    ensures |run.fetches| <= 2
    ensures |run.fetches| == 2 ==> run.fetches[0].news == [] && run.fetches[1].tema != run.fetches[0].tema
    ensures forall k :: 0 <= k < |run.fetches| ==> run.fetches[k].tema in Temas
  {
  }

  /** Nothing is fetched, generated or published without an API key and a successful authentication. */
  lemma NothingBeforeSetup(run: Run, apiKey: Option<string>, authOk: bool,
                           feed: string -> FeedOutcome, gemini: Prompt -> GenReply, blogger: PostRequest -> bool)
    requires RunSpec(run, apiKey, authOk, feed, gemini, blogger)
    requires !KeyConfigured(apiKey) || !authOk
    ensures run.fetches == [] && run.prompt == None && run.post == None
  {
  }

  /**
   * Publish guard: a post is submitted only after a fetch that found news and
   * a generation with a non-empty title and body; it carries that title and
   * body, the three labels of the topic, and goes to the configured blog.
   */
  lemma PublishGuard(run: Run, apiKey: Option<string>, authOk: bool,
                     feed: string -> FeedOutcome, gemini: Prompt -> GenReply, blogger: PostRequest -> bool)
    requires RunSpec(run, apiKey, authOk, feed, gemini, blogger)
    requires run.post.Some?
    ensures KeyConfigured(apiKey) && authOk && run.prompt.Some?
    ensures var last := run.fetches[|run.fetches| - 1];
      && last.news != []
      && var draft := DraftOf(gemini(run.prompt.value));
      && draft.Some?
      && draft.value.title != "" && draft.value.body != ""
      && run.post.value.title == draft.value.title
      && run.post.value.content == draft.value.body
      && run.post.value.labels == [Lower(last.tema), "vivimundo", "notícias"]
      && run.post.value.blogId == BlogId
  {
    var last := run.fetches[|run.fetches| - 1];
    assert ArticleSpec(run, last, gemini, blogger);
  }

  /** A generation failure ends the run without a post. */
  lemma GenerationFailureNoPost(run: Run, apiKey: Option<string>, authOk: bool,
                                feed: string -> FeedOutcome, gemini: Prompt -> GenReply, blogger: PostRequest -> bool)
    requires RunSpec(run, apiKey, authOk, feed, gemini, blogger)
    requires run.prompt.Some? && gemini(run.prompt.value).GenFailed?
    ensures run.outcome == GenerationFailed && run.post == None
  {
  }

  /** A run reports success exactly when its one post was submitted and accepted. */
  lemma PublishedIff(run: Run, apiKey: Option<string>, authOk: bool,
                     feed: string -> FeedOutcome, gemini: Prompt -> GenReply, blogger: PostRequest -> bool)
    requires RunSpec(run, apiKey, authOk, feed, gemini, blogger)
    ensures run.outcome == Published <==> run.post.Some? && blogger(run.post.value)
  {
  }
}
