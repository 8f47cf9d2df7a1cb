# Vivimundo bot — a verified model of one run

`bot_vivimundo.py` is a small bot. On each run it does the following:

- picks one of the blog's four topics at random
- fetches up to three recent Google News RSS items about that topic
- if the first fetch finds nothing, it retries once with a different topic
- builds a text context from the items
- asks Gemini for an article
- splits the reply into a title and a body
- if both are non-empty, publishes the post to Blogger with three labels

This project models that run in Dafny and proves what the code promises about it.

The modules mirror the program's parts:

- `Wrappers`: Python's `None` as `Option`.
- `PyStr`: the Python string operations the bot relies on, with their exact semantics:
  - `in`
  - `split` with a non-empty separator
  - `join`
  - `replace` with a non-empty pattern
  - `strip()` over the full `str.isspace` set, and `strip(chars)`
  - ASCII `lower`
  - `s[:n]` for `n >= 0`
  - decimal formatting of a non-negative `int` in an f-string
- `News`: `buscar_noticias`. This covers:
  - the topic-to-query table and the feed URL
  - ElementTree's distinction between a missing child (giving `''`) and an empty child (giving `None`)
  - Python's `[:quantidade]` slice, negative stops included
  - the loop that builds the records, as an imperative `while` loop
- `Article`: `gerar_artigo`. This covers:
  - the context builder, as a loop over the items, proved equal to a recursive definition
  - the reply parser, with its marker path and its fallback path
  - the Gemini call
- `Bot`: `publicar_post` and `main`. This covers:
  - the API-key check and the authentication
  - the random topic, and the single retry with a different topic
  - the label list
  - the guard that publishes only a non-empty title and body

The services are parameters of the model:

- `feed`: the HTTP GET together with the XML parse, mapping a URL to `Unreachable` or to `Response(status, document)`.
- `gemini`: the text generation.
- `blogger`: the post insertion, which reports success or failure.
- `apiKey` and `authOk`: the environment variable and the result of `autenticar_blogger`.

`RunBot` records each run as a `Run` value. It holds:

- the outcome
- the topics and news fetched
- the prompt sent, if any
- the post request, if any

`RunSpec` states what every run satisfies. The lemmas after it derive the properties of `main` from that.

## Model

| member | source | states |
|---|---|---|
| PyStr.FindFrom | bot_vivimundo.py:138 | the index returned is an occurrence at or after the start, with no occurrence in between; `None` means no occurrence from the start on |
| PyStr.Find | bot_vivimundo.py:138 | the result is the first occurrence of the pattern, or `None` when it occurs nowhere |
| PyStr.ContainsIff | bot_vivimundo.py:138 | Python's `p in s` holds exactly when `p` occurs at some index of `s` |
| PyStr.Before | bot_vivimundo.py:139 | the text before the first separator is a prefix of the string |
| PyStr.After | bot_vivimundo.py:139 | when the separator occurs, the string is the text before it, then the separator, then the text after |
| PyStr.SplitJoin | bot_vivimundo.py:139 | `sep.join(s.split(sep)) == s` for every string and every non-empty separator |
| PyStr.SplitPiecesWithout | bot_vivimundo.py:139 | no piece of `s.split(sep)` contains `sep` |
| PyStr.SplitFirst | bot_vivimundo.py:139-140 | piece 0 of `split` is the text before the first separator, and the split has a single piece exactly when the separator does not occur |
| PyStr.SplitAfterFirst | bot_vivimundo.py:141 | when the separator occurs, the pieces after the first are the split of the text after it, so piece 1 ends at the second separator |
| PyStr.Replace | bot_vivimundo.py:140 | replacing a pattern that does not occur leaves the string unchanged |
| PyStr.ReplaceIsSplitJoin | bot_vivimundo.py:140 | `s.replace(p, r) == r.join(s.split(p))` |
| PyStr.Contains | bot_vivimundo.py:138 | Python's `p in s`, computed by `Find`; no ensures. `PyStr.ContainsIff` states its meaning |
| PyStr.Split | bot_vivimundo.py:139 | `s.split(sep)`; its ensures gives at least one piece. `SplitJoin`, `SplitPiecesWithout`, `SplitFirst` and `SplitAfterFirst` state its properties |
| PyStr.Join | bot_vivimundo.py:146 | `sep.join(parts)`; no ensures. `SplitJoin`, `JoinCons` and `FallbackRoundTrip` state its properties |
| PyStr.StripSet | bot_vivimundo.py:145 | `s.strip(chars)` as `rstrip` after `lstrip`; no ensures. `StripSlice`, `StripWithout`, `StripEnds` and `StripIdempotent` state its properties |
| PyStr.Strip | bot_vivimundo.py:140-141 | `s.strip()`, which is `StripSet` over the `isspace` characters; no ensures. The `StripSet` lemmas apply to it |
| PyStr.Whitespace | bot_vivimundo.py:140-141 | the 29 characters for which `str.isspace()` holds; `strip()` removes exactly these, as `StripSlice` and `StripEnds` state for `Strip` |
| PyStr.LStrip | bot_vivimundo.py:145 | the result is a suffix of the input; every removed character is in the set, and the first kept character is not |
| PyStr.RStrip | bot_vivimundo.py:145 | the result is a prefix of the input; every removed character is in the set, and the last kept character is not |
| PyStr.StripSlice | bot_vivimundo.py:140-141 | `strip` returns a contiguous slice of its input, with only characters of the set removed on either side, and both end characters outside the set |
| PyStr.StripWithout | bot_vivimundo.py:141 | stripping cannot create an occurrence of a pattern |
| PyStr.StripIdempotent | bot_vivimundo.py:140-141 | stripping twice is stripping once |
| PyStr.Take | bot_vivimundo.py:109 | `s[:n]` has length min(len(s), n) and is a prefix of `s` |
| PyStr.Lower | bot_vivimundo.py:221 | `lower()` keeps the length and maps each character through ASCII lower-casing |
| PyStr.NatToString | bot_vivimundo.py:107 | the decimal form of a number is non-empty, all digits, and has no leading zero |
| PyStr.NatToStringValue | bot_vivimundo.py:107 | reading the decimal form back gives the number |
| News.QueryTable | bot_vivimundo.py:57-64 | the four topics map to their fixed search queries, and any other topic is its own query |
| News.Queries | bot_vivimundo.py:57-62 | the four topics and their search queries, written as in the source; `News.QueryTable` states the lookup through it |
| News.FeedUrlInjective | bot_vivimundo.py:68 | different queries give different request URLs |
| News.QueryFor | bot_vivimundo.py:64 | `queries.get(tema, tema)`; no ensures. `News.QueryTable` states its values |
| News.FeedUrl | bot_vivimundo.py:68 | the Google News RSS search URL for a query; no ensures. `News.FeedUrlInjective` and `Bot.TemasQueriesDistinct` state its properties |
| News.FieldText | bot_vivimundo.py:78-80 | a child's `.text`, or `''` when the child is absent; no ensures. `News.NewsOfSuccess` states its effect |
| News.ToNewsItem | bot_vivimundo.py:78-86 | the record built from one item; no ensures. `News.ExtractItems` and `News.NewsOfSuccess` state how records relate to items |
| News.NewsOf | bot_vivimundo.py:69-93 | the list `buscar_noticias` returns for an outcome of the request; no ensures. `NewsOfFailure`, `NewsOfSuccess` and `NewsOfBound` state its properties |
| News.SliceStop | bot_vivimundo.py:77 | Python's slice `[:q]` never keeps more elements than there are |
| News.SliceStopMin | bot_vivimundo.py:77 | for q >= 0, `[:q]` keeps exactly min(len, q) elements |
| News.Extracted | bot_vivimundo.py:77-86 | the records correspond one to one, in order, to the first slice-many items |
| News.ExtractItems | bot_vivimundo.py:76-86 | the loop returns one record per kept item, in document order: a missing child becomes `''`, and an empty child keeps its `None` text |
| News.FetchNews | bot_vivimundo.py:53-93 | the result is determined by the feed's answer for this topic's URL: its items on a parsed 200 response, and `[]` otherwise |
| News.NewsOfFailure | bot_vivimundo.py:69-71 | a network error, a non-200 status or a malformed document yields `[]` |
| News.NewsOfSuccess | bot_vivimundo.py:71-89 | on a parsed 200 response the result has min(M, Q) records, the i-th built from the i-th item, with `''` for every missing child |
| News.NewsOfBound | bot_vivimundo.py:77 | never more records than requested |
| Article.Show | bot_vivimundo.py:107 | an f-string of an optional text, where `None` prints as `None`; no ensures. `Article.EntryShape` states the entry built from it |
| Article.Truthy | bot_vivimundo.py:108 | Python truthiness of an optional text: present and non-empty; no ensures. `Article.EntryShape` states its effect |
| Article.Header | bot_vivimundo.py:105 | the first lines of the context; no ensures. `Article.ContextHeader` states its place |
| Article.TitleLine | bot_vivimundo.py:107 | the numbered title line of an item; no ensures. `Article.TitleLineNumber` and `Article.EntryShape` state its form |
| Article.DescriptionLine | bot_vivimundo.py:109 | the description line of an item; no ensures. `Article.EntryShape` states its form |
| Article.DescriptionBudget | bot_vivimundo.py:109 | the 200 characters of a description kept in the context; `Article.EntryShape` states its use |
| Article.Entry | bot_vivimundo.py:107-109 | the text one loop iteration appends for item i; no ensures. `Article.EntryShape` states its form |
| Article.Entries | bot_vivimundo.py:106-109 | the entries of the items numbered from `first`; no ensures. `EntriesAppend`, `EntriesStep`, `ContextItem` and `BuildContext` state its properties |
| Article.ContextOf | bot_vivimundo.py:105-109 | the context for a topic and its news; no ensures. `BuildContext` is proved equal to it, and `ContextItem`, `ContextHeader` and `EntriesAppend` state its structure |
| Article.HasMarkers | bot_vivimundo.py:138 | both `TÍTULO:` and `CONTEÚDO:` occur in the reply; no ensures. `PyStr.ContainsIff` gives its meaning |
| Article.TitleMarker | bot_vivimundo.py:138-140 | the marker `TÍTULO:` the parser tests for and removes from the title |
| Article.BodyMarker | bot_vivimundo.py:138-139 | the marker `CONTEÚDO:` the parser tests for and splits on |
| Article.ParseReply | bot_vivimundo.py:138-146 | the title and body taken from the reply; no ensures. `MarkerTitle`, `MarkerBody`, `MarkerStripped`, `FallbackTitle`, `FallbackBody`, `FallbackRoundTrip` and `TitleKeepsMarker` state its behaviour |
| Article.DraftOf | bot_vivimundo.py:133-153 | no draft when generation fails, and otherwise the parsed reply; no ensures. `Article.GenerateArticle` is proved to return it |
| Article.EntriesAppend | bot_vivimundo.py:106-109 | the context of two consecutive runs of items is the concatenation of their contexts, with the numbering continued |
| Article.ContextItem | bot_vivimundo.py:105-109 | item k of the list contributes exactly its own entry, numbered k+1, between the entries of the items before it and after it |
| Article.ContextHeader | bot_vivimundo.py:105 | the context starts with the topic header, and is only the header when there are no items |
| Article.EntryShape | bot_vivimundo.py:107-109 | an entry is its title line, followed by a description line only when the description is truthy; that line is three spaces, the first min(200, len) characters of the description, then `...` and a newline |
| Article.TitleLineNumber | bot_vivimundo.py:106-107 | the title line starts with a newline and then the item number in decimal, starting from 1 |
| Article.EntriesStep | bot_vivimundo.py:106-109 | one loop iteration appends the entry of the next item |
| Article.BuildContext | bot_vivimundo.py:105-109 | the loop builds exactly the context defined by the header and the numbered entries |
| Article.MarkerTitle | bot_vivimundo.py:138-140 | with both markers present, the title is the text before the first `CONTEÚDO:`, with `TÍTULO:` removed and whitespace stripped |
| Article.MarkerBody | bot_vivimundo.py:138-141 | with both markers present, the body is the stripped text between the first and the second `CONTEÚDO:`, and it never contains `CONTEÚDO:` |
| Article.MarkerStripped | bot_vivimundo.py:140-141 | with both markers present, neither title nor body starts or ends with whitespace |
| Article.FallbackTitle | bot_vivimundo.py:142-145 | without both markers, the title is the first line with `#` and then whitespace stripped from both ends, and it holds no newline |
| Article.FallbackBody | bot_vivimundo.py:144-146 | without both markers, the body is everything after the first newline, and empty when there is none |
| Article.FallbackRoundTrip | bot_vivimundo.py:144-146 | without both markers, the first line, a newline and the body reassemble the reply |
| Article.ReplaceOnePass | bot_vivimundo.py:140 | `"TÍTTÍTULO:ULO:".replace("TÍTULO:", "")` is `"TÍTULO:"`: the pass does not rescan the text it has produced |
| Article.TitleKeepsMarker | bot_vivimundo.py:138-140 | the title parsed from the reply `TÍTTÍTULO:ULO:CONTEÚDO:x` is `TÍTULO:`, so it still contains the title marker |
| Article.GenerateArticle | bot_vivimundo.py:96-153 | the draft is the parsed reply to the prompt made from exactly this context; a generation error gives no draft |
| Bot.Labels | bot_vivimundo.py:221 | the labels `[tema.lower(), 'vivimundo', 'notícias']`; no ensures. `Bot.PublishGuard` states that the post carries them |
| Bot.BlogId | bot_vivimundo.py:14 | the id of the blog posts go to; `Bot.PublishPost` and `Bot.PublishGuard` state that every request carries it |
| Bot.Temas | bot_vivimundo.py:19 | the blog's four topics, in the source's order; `Bot.DrawTopic` and `Bot.OtherTopicsOfTemas` state the draws from it |
| Bot.NewsPerRun | bot_vivimundo.py:208-213 | the quantity 3 passed to each fetch; `Bot.FetchWithRetry` states its use |
| Bot.MakePost | bot_vivimundo.py:160-171 | the insertion request for the blog; no ensures. `Bot.PublishPost` and `Bot.PublishGuard` state its fields |
| Bot.KeyConfigured | bot_vivimundo.py:191 | `GEMINI_API_KEY` is set and non-empty; no ensures. `Bot.NothingBeforeSetup` and `Bot.PublishGuard` state its effect |
| Bot.Publishable | bot_vivimundo.py:219 | `titulo and conteudo`: there is a draft with a non-empty title and body; no ensures. `Bot.PublishGuard` and `Bot.GenerationFailureNoPost` state its effect |
| Bot.FetchesSpec | bot_vivimundo.py:204-213 | the fetch phase of a run; no ensures. `Bot.FetchWithRetry` establishes it and `Bot.AtMostOneRetry` draws its consequences |
| Bot.ArticleSpec | bot_vivimundo.py:215-233 | the generate-and-publish phase of a run; no ensures. `Bot.GenerateAndPublish` establishes it |
| Bot.RunSpec | bot_vivimundo.py:182-233 | what every run of `main` satisfies; no ensures. `Bot.RunBot` establishes it, and `AtMostOneRetry`, `NothingBeforeSetup`, `PublishGuard`, `GenerationFailureNoPost` and `PublishedIff` follow from it |
| Bot.OtherTopics | bot_vivimundo.py:212 | the comprehension keeps exactly the topics different from the one given |
| Bot.OtherTopicsOfTemas | bot_vivimundo.py:212 | for a topic of the blog, three other topics remain to choose from |
| Bot.TemasQueriesDistinct | bot_vivimundo.py:57-68 | two different topics of the blog are fetched from different URLs |
| Bot.DrawTopic | bot_vivimundo.py:204 | the topic drawn is one of the blog's four |
| Bot.DrawOtherTopic | bot_vivimundo.py:212 | the retry topic is one of the blog's topics and differs from the first |
| Bot.FetchWithRetry | bot_vivimundo.py:204-213 | one or two fetches; the second happens exactly when the first found nothing, on a different topic, and each fetch is the feed's answer for its topic with quantity 3 |
| Bot.PublishPost | bot_vivimundo.py:156-179 | the request sent is a `blogger#post` to the blog's id with the given title, content and labels, and the result is the service's success |
| Bot.GenerateAndPublish | bot_vivimundo.py:215-233 | no news means no prompt and no post; otherwise the prompt is built from the last fetch, and a post is requested exactly when the draft has a non-empty title and body |
| Bot.RunBot | bot_vivimundo.py:182-233 | every run satisfies the run specification for the given environment |
| Bot.AtMostOneRetry | bot_vivimundo.py:204-213 | a run fetches at most twice, only from the blog's topics; a second fetch follows an empty first one, on a different topic |
| Bot.NothingBeforeSetup | bot_vivimundo.py:190-201 | without an API key or a successful authentication, nothing is fetched, generated or posted |
| Bot.PublishGuard | bot_vivimundo.py:215-222 | a post is requested only after setup succeeded, news were found and the draft has a non-empty title and body; the post carries that title and body, the labels `[tema.lower(), 'vivimundo', 'notícias']` and the blog's id |
| Bot.GenerationFailureNoPost | bot_vivimundo.py:151-153 | when generation fails, the run ends as a generation failure without a post |
| Bot.PublishedIff | bot_vivimundo.py:222-229 | a run ends as published exactly when a post was requested and the service accepted it |

## Left out

- Authentication (`autenticar_blogger`, lines 22-50) is the boolean `authOk`. This covers the token file, the refresh, the OAuth flow and the pickle.
- The HTTP request and `ET.fromstring` are the `feed` service: it answers a URL with an outcome, and its timeout and the XML grammar are not modelled.
- The source inserts the query into the URL without encoding; `requests` then percent-encodes characters such as spaces, and that step is part of `feed`.
- The Gemini configuration and model construction (lines 101-102) are assumed not to fail. The source would raise there outside the `try`.
- The fixed wording of the prompt (lines 112-131) is not spelled out. `Prompt(contexto)` stands for that template with the context in its place, and the model proves which context it holds.
- The Blogger insertion is the `blogger` service; the URL it returns is only printed, so it is not modelled.
- `random.choice` is nondeterministic choice: the model proves which topics can be drawn, not that they are uniformly distributed.
- Every `print`, and the timestamp from `datetime.now()`, are left out; they are output only.
- The services are functions of their request: the same URL gets the same answer within one run. This matters only if the two fetches use the same URL, and `Bot.TemasQueriesDistinct` proves they never do.
- PyStr.Lower: lowers ASCII letters only. The topics passed to it are the four fixed names, which are also ASCII.
- PyStr.Split: requires a non-empty separator, so Python's `ValueError` for an empty one is not modelled. The bot only splits on `CONTEÚDO:` and `"\n"`.
- PyStr.Replace: requires a non-empty pattern. Python's `replace` with an empty pattern inserts the replacement between every pair of characters and at both ends, and that case is not modelled. The bot only replaces `TÍTULO:`.
- A Python `str` is a `seq<char>` of Unicode scalar values. Python's lone surrogates cannot be represented.
- Two consequences of the parser as written are kept, not changed:
  - the body stops at a second `CONTEÚDO:`, which `Article.MarkerBody` proves;
  - the title is `replace` applied once, so overlapping text can still leave a `TÍTULO:` in it. `Article.TitleKeepsMarker` proves this for the reply `TÍTTÍTULO:ULO:CONTEÚDO:x`.
