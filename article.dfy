/**
 * The article generator (`gerar_artigo`): the news context embedded in the
 * prompt, and the split of the model's free-text reply into a title and an
 * HTML body. The generative-text service is given to the model (`gemini`):
 * it answers a prompt with a failure (any exception) or with a text.
 */
module Article {
  import opened Wrappers
  import opened PyStr
  import opened News

  // ---------------------------------------------------------------------
  // Context builder
  // ---------------------------------------------------------------------

  /** How Python's f-string shows a field: the text, or `None`. */
  function Show(o: Option<string>): string {
    match o
    case None => "None"
    case Some(s) => s
  }

  /** Python truthiness of a field: not `None` and not empty. */
  predicate Truthy(o: Option<string>) {
    o.Some? && o.value != ""
  }

  /** Number of description characters copied into the context. */
  const DescriptionBudget: nat := 200

  /** The first line of the context. */
  function Header(tema: string): string {
    "Tema: " + tema + "\n\nNotícias recentes:\n"
  }

  /** `f"\n{i}. {noticia['titulo']}\n"`. */
  function TitleLine(i: nat, n: NewsItem): string {
    "\n" + NatToString(i) + ". " + Show(n.title) + "\n"
  }

  /** `f"   {noticia['descricao'][:200]}...\n"` when the description is truthy, nothing otherwise. */
  function DescriptionLine(n: NewsItem): string {
    if Truthy(n.description) then "   " + Take(n.description.value, DescriptionBudget) + "...\n" else ""
  }

  /** What item number `i` adds to the context. */
  function Entry(i: nat, n: NewsItem): string {
    TitleLine(i, n) + DescriptionLine(n)
  }

  /** The entries of `ns`, numbered from `first`. */
  function Entries(ns: seq<NewsItem>, first: nat): string
    decreases |ns|
  {
    if ns == [] then "" else Entry(first, ns[0]) + Entries(ns[1..], first + 1)
  }

  /** The context the loop of `gerar_artigo` builds. */
  function ContextOf(tema: string, ns: seq<NewsItem>): string {
    Header(tema) + Entries(ns, 1)
  }

  /** Concatenation of strings is associative. */
  lemma ConcatAssoc(a: string, b: string, c: string)
    ensures (a + b) + c == a + (b + c)
  {
  }

  /** Entries of a concatenation: the second part continues the numbering. */
  lemma {:induction false} EntriesAppend(a: seq<NewsItem>, b: seq<NewsItem>, first: nat)
    ensures Entries(a + b, first) == Entries(a, first) + Entries(b, first + |a|)
    decreases |a|
  {
    if a == [] {
      assert a + b == b;
    } else {
      assert (a + b)[0] == a[0];
      assert (a + b)[1..] == a[1..] + b;
      EntriesAppend(a[1..], b, first + 1);
    }
  }

  /** Entries of a single item. */
  lemma EntriesOne(n: NewsItem, first: nat)
    ensures Entries([n], first) == Entry(first, n)
  {
    assert [n][1..] == [];
  }

  /**
   * The context is the fixed header followed by one entry per item:
   * item k (0-based) is numbered k + 1 and stands between the entries of
   * the items before it and those after it.
   */
  lemma ContextItem(tema: string, ns: seq<NewsItem>, k: nat)
    requires k < |ns|
    ensures ContextOf(tema, ns) == Header(tema) + Entries(ns[..k], 1) + Entry(k + 1, ns[k]) + Entries(ns[k + 1..], k + 2)
  {
    var before, rest := ns[..k], ns[k + 1..];
    assert ns == before + ([ns[k]] + rest);
    EntriesAppend(before, [ns[k]] + rest, 1);
    EntriesAppend([ns[k]], rest, k + 1);
    EntriesOne(ns[k], k + 1);
    ConcatAssoc(Header(tema), Entries(before, 1), Entry(k + 1, ns[k]) + Entries(rest, k + 2));
    ConcatAssoc(Header(tema) + Entries(before, 1), Entry(k + 1, ns[k]), Entries(rest, k + 2));
  }

  /** The context always starts with the header, and is only the header when there is no news. */
  lemma ContextHeader(tema: string, ns: seq<NewsItem>)
    ensures ContextOf(tema, ns)[..|Header(tema)|] == Header(tema)
    ensures ns == [] ==> ContextOf(tema, ns) == Header(tema)
  {
  }

  /**
   * An entry is its numbered title line, then a description line only when
   * the description is truthy; that line holds a prefix of the description
   * of at most 200 characters, followed by `...`.
   */
  lemma EntryShape(i: nat, n: NewsItem)
    ensures Entry(i, n)[..|TitleLine(i, n)|] == TitleLine(i, n)
    ensures !Truthy(n.description) ==> Entry(i, n) == TitleLine(i, n)
    ensures Truthy(n.description) ==>
      var d := n.description.value;
      var line := Entry(i, n)[|TitleLine(i, n)|..];
      && |line| == 3 + (if |d| <= 200 then |d| else 200) + 4
      && line[..3] == "   "
      && line[3..|line| - 4] == d[..|line| - 7]
      && line[|line| - 4..] == "...\n"
  {
    if Truthy(n.description) {
      var line := Entry(i, n)[|TitleLine(i, n)|..];
      assert line == DescriptionLine(n);
    }
  }

  /** The title line holds the item number in decimal. */
  lemma TitleLineNumber(i: nat, n: NewsItem)
    ensures var t := TitleLine(i, n); var digits := NatToString(i);
      t[0] == '\n' && t[1..1 + |digits|] == digits && DecimalValue(digits) == i
  {
    NatToStringValue(i);
  }

  /** Adding the entry of item k extends the entries of the items before it. */
  lemma EntriesStep(ns: seq<NewsItem>, k: nat)
    requires k < |ns|
    ensures Entries(ns[..k + 1], 1) == Entries(ns[..k], 1) + Entry(k + 1, ns[k])
  {
    assert ns[..k + 1] == ns[..k] + [ns[k]];
    EntriesAppend(ns[..k], [ns[k]], 1);
    EntriesOne(ns[k], k + 1);
  }

  /** The loop `for i, noticia in enumerate(noticias, 1)` growing `contexto` with `+=`. */
  method BuildContext(tema: string, noticias: seq<NewsItem>) returns (contexto: string)
    ensures contexto == ContextOf(tema, noticias)
  {
    contexto := "Tema: " + tema + "\n\nNotícias recentes:\n";
    var k := 0;
    while k < |noticias|
      invariant 0 <= k <= |noticias|
      invariant contexto == Header(tema) + Entries(noticias[..k], 1)
    {
      var noticia := noticias[k];
      var i := k + 1;
      ghost var before := contexto;
      var titleLine := "\n" + NatToString(i) + ". " + Show(noticia.title) + "\n";
      contexto := contexto + titleLine;
      var descriptionLine := "";
      if Truthy(noticia.description) {
        descriptionLine := "   " + Take(noticia.description.value, 200) + "...\n";
        contexto := contexto + descriptionLine;
      }
      assert titleLine + descriptionLine == Entry(i, noticia);
      assert contexto == before + Entry(i, noticia);
      EntriesStep(noticias, k);
      ConcatAssoc(Header(tema), Entries(noticias[..k], 1), Entry(i, noticia));
      k := k + 1;
    }
    assert noticias[..k] == noticias;
  }

  // ---------------------------------------------------------------------
  // Prompt and reply
  // ---------------------------------------------------------------------

  /**
   * The prompt sent to the model: the fixed instructions of `gerar_artigo`
   * (blog, requirements, answer format) with the context in their middle.
   * Only the context varies from one run to another, so the prompt is
   * represented by it.
   */
  datatype Prompt = Prompt(contexto: string)

  const TitleMarker: string := "TÍTULO:"
  const BodyMarker: string := "CONTEÚDO:"

  /** A generated article before publication. */
  datatype Draft = Draft(title: string, body: string)

  /** The two markers are present: the reply follows the requested format. */
  predicate HasMarkers(texto: string) {
    Contains(texto, TitleMarker) && Contains(texto, BodyMarker)
  }

  /** The title/body extraction of `gerar_artigo`, with its fallback. */
  function ParseReply(texto: string): Draft {
    if HasMarkers(texto) then
      var partes := Split(texto, BodyMarker);
      SplitFirst(texto, BodyMarker);
      Draft(Strip(Replace(partes[0], TitleMarker, "")), Strip(partes[1]))
    else
      var linhas := Split(texto, "\n");
      Draft(Strip(StripSet(linhas[0], {'#'})), Join("\n", linhas[1..]))
  }

  /**
   * Marker path, title: the text before the first `CONTEÚDO:`, with every
   * `TÍTULO:` replaced by nothing and surrounding whitespace stripped.
   */
  lemma MarkerTitle(texto: string)
    requires HasMarkers(texto)
    ensures ParseReply(texto).title == Strip(Replace(Before(texto, BodyMarker), TitleMarker, ""))
  {
    SplitFirst(texto, BodyMarker);
  }

  /**
   * Marker path, body: the text between the first and the second
   * `CONTEÚDO:` (or the end), stripped; so it never contains the marker.
   */
  lemma MarkerBody(texto: string)
    requires HasMarkers(texto)
    ensures ParseReply(texto).body == Strip(Before(After(texto, BodyMarker), BodyMarker))
    ensures !Contains(ParseReply(texto).body, BodyMarker)
  {
    SplitAfterFirst(texto, BodyMarker);
    BeforeWithout(After(texto, BodyMarker), BodyMarker);
    StripWithout(Before(After(texto, BodyMarker), BodyMarker), Whitespace, BodyMarker);
  }

  /** Both extracted fields of the marker path are stripped of whitespace at both ends. */
  lemma MarkerStripped(texto: string)
    requires HasMarkers(texto)
    ensures var d := ParseReply(texto);
      && (d.title != "" ==> d.title[0] !in Whitespace && d.title[|d.title| - 1] !in Whitespace)
      && (d.body != "" ==> d.body[0] !in Whitespace && d.body[|d.body| - 1] !in Whitespace)
  {
    var partes := Split(texto, BodyMarker);
    SplitFirst(texto, BodyMarker);
    StripEnds(Replace(partes[0], TitleMarker, ""), Whitespace);
    StripEnds(partes[1], Whitespace);
  }

  /** A three-part concatenation splits back into its parts at their offsets. */
  lemma InfixSlice(a: string, b: string, c: string)
    ensures (a + b + c)[..|a|] == a
    ensures (a + b + c)[|a|..|a| + |b|] == b
    ensures (a + b + c)[|a| + |b|..] == c
  {
  }

  /**
   * `replace` makes one left-to-right pass: removing the `TÍTULO:` found
   * inside `TÍTTÍTULO:ULO:` joins the text around it into a new `TÍTULO:`.
   */
  lemma ReplaceOnePass()
    ensures Replace("TÍTTÍTULO:ULO:", TitleMarker, "") == TitleMarker
  {
    var s := "TÍTTÍTULO:ULO:";
    MismatchAt(s, TitleMarker, 0, 3);
    MismatchAt(s, TitleMarker, 1, 0);
    MismatchAt(s, TitleMarker, 2, 1);
    assert s == "TÍT" + TitleMarker + "ULO:";
    InfixSlice("TÍT", TitleMarker, "ULO:");
    assert Find(s, TitleMarker) == Some(3);
    var rest := s[10..];
    assert Find(rest, TitleMarker) == None;
    assert s[..3] + rest == TitleMarker;
  }

  /**
   * In the reply `TÍTTÍTULO:ULO:CONTEÚDO:x` both markers occur, and the first `CONTEÚDO:` is at index 14.
   * The reply is a parameter fixed by `requires`, because a literal argument makes `FindFrom` unfold without bound.
   */
  lemma MarkersOfOnePassExample(texto: string)
    requires texto == "TÍTTÍTULO:ULO:CONTEÚDO:x"
    ensures HasMarkers(texto)
    ensures Before(texto, BodyMarker) == "TÍTTÍTULO:ULO:"
  {
    var head := texto[..14];
    assert head == "TÍTTÍTULO:ULO:";
    assert texto == "TÍT" + TitleMarker + "ULO:CONTEÚDO:x";
    InfixSlice("TÍT", TitleMarker, "ULO:CONTEÚDO:x");
    assert texto == head + BodyMarker + "x";
    InfixSlice(head, BodyMarker, "x");
    assert BodyMarker[0] !in head;
    ContainsIff(texto, TitleMarker);
    assert OccursAt(texto, TitleMarker, 3);
    forall j | 0 <= j < 14 ensures !OccursAt(texto, BodyMarker, j) {
      assert texto[j] == head[j];
      MismatchAt(texto, BodyMarker, j, 0);
    }
    assert OccursAt(texto, BodyMarker, 14);
    assert Find(texto, BodyMarker) == Some(14);
  }

  /**
   * Consequently the title extracted from that reply is `TÍTULO:` itself:
   * the marker survives the `replace`. The reply is fixed by `requires` for the same reason as above.
   */
  lemma TitleKeepsMarker(texto: string)
    requires texto == "TÍTTÍTULO:ULO:CONTEÚDO:x"
    ensures ParseReply(texto).title == TitleMarker
    ensures Contains(ParseReply(texto).title, TitleMarker)
  {
    MarkersOfOnePassExample(texto);
    MarkerTitle(texto);
    ReplaceOnePass();
    MarkerIsStripped();
  }

  /** `TÍTULO:` has no surrounding whitespace and contains itself. */
  lemma MarkerIsStripped()
    ensures Strip(TitleMarker) == TitleMarker
    ensures Contains(TitleMarker, TitleMarker)
  {
    StripOfClean(TitleMarker, Whitespace);
    assert OccursAt(TitleMarker, TitleMarker, 0);
    ContainsIff(TitleMarker, TitleMarker);
  }

  /**
   * Fallback path, title: the first line with `#` stripped from both ends
   * and then whitespace; it holds no newline.
   */
  lemma FallbackTitle(texto: string)
    requires !HasMarkers(texto)
    ensures ParseReply(texto).title == Strip(StripSet(Before(texto, "\n"), {'#'}))
    ensures !Contains(ParseReply(texto).title, "\n")
  {
    var first := Before(texto, "\n");
    SplitFirst(texto, "\n");
    BeforeWithout(texto, "\n");
    StripWithout(first, {'#'}, "\n");
    StripWithout(StripSet(first, {'#'}), Whitespace, "\n");
  }

  /** Fallback path, body: exactly the text after the first newline, or empty when there is none. */
  lemma FallbackBody(texto: string)
    requires !HasMarkers(texto)
    ensures ParseReply(texto).body == After(texto, "\n")
    ensures !Contains(texto, "\n") ==> ParseReply(texto).body == ""
  {
    SplitFirst(texto, "\n");
    if Contains(texto, "\n") {
      SplitAfterFirst(texto, "\n");
      SplitJoin(After(texto, "\n"), "\n");
    } else {
      assert Split(texto, "\n")[1..] == [];
    }
  }

  /** Fallback round trip: the raw first line, a newline and the body give back the reply. */
  lemma FallbackRoundTrip(texto: string)
    requires !HasMarkers(texto) && Contains(texto, "\n")
    ensures Before(texto, "\n") + "\n" + ParseReply(texto).body == texto
  {
    FallbackBody(texto);
  }

  // ---------------------------------------------------------------------
  // Generation
  // ---------------------------------------------------------------------

  /** The generative model's answer: an exception (API error, blocked reply) or the reply text. */
  datatype GenReply = GenFailed | GenText(text: string)

  /** The draft a reply gives: `None` for a failed call, the parsed reply otherwise. */
  function DraftOf(reply: GenReply): Option<Draft> {
    match reply
    case GenFailed => None
    case GenText(texto) => Some(ParseReply(texto))
  }

  /** `gerar_artigo(tema, noticias)`: `None` stands for the `(None, None)` returned on failure. */
  method GenerateArticle(tema: string, noticias: seq<NewsItem>, gemini: Prompt -> GenReply) returns (draft: Option<Draft>)
    ensures draft == DraftOf(gemini(Prompt(ContextOf(tema, noticias))))
  {
    var contexto := BuildContext(tema, noticias);
    var prompt := Prompt(contexto);
    var response := gemini(prompt);
    match response
    case GenFailed =>
      draft := None;
    case GenText(texto) =>
      draft := Some(ParseReply(texto));
  }
}
