/**
  `summarize_with_gemini` and `chat_with_gemini` (news_chatbot.py, lines
  170-264): the guards in front of the model call and the prompt built from
  the article list. The model is a function from the key and the prompt to
  its reply; each method also returns the prompts it sent, so that "the
  model is not reached" is a statement about its result.
*/
module Gateway {
  import opened Options
  import opened Text
  import opened Feed
  import opened Credentials

  /** What `model.generate_content(prompt).text` gave: the text, or the exception's text. */
  datatype ModelReply = Answered(text: string) | Threw(error: string)

  /** The dictionary the two functions return: `error: False` with the text, or `error: True`. */
  datatype GatewayResult = Reply(text: string) | Failure(message: string, details: Option<string>)

  /** The two prompt layouts: the chat prompt also lists each article's date. */
  datatype PromptKind = SummaryPrompt | ChatPrompt

  const NoKey := Failure("API 키가 설정되지 않았습니다.", Some("상단에서 재미나이 API 키를 입력하고 검증해주세요."))
  const NothingToSummarize := Failure("요약할 뉴스가 없습니다.", None)
  const NothingToChat := Failure("대화할 뉴스가 없습니다. 먼저 뉴스를 검색해주세요.", None)
  const RetryHint := "API 키가 유효한지 확인하거나 잠시 후 다시 시도해주세요."

  const NewsHeader := "다음은 수집한 뉴스 기사들입니다:\n\n"
  const SummaryIntro := "다음 뉴스 기사들을 읽고 전체적인 요약을 한국어로 작성해주세요.\n요약은 3-5문장 정도로 간결하게 작성하고, 주요 내용과 핵심 포인트를 포함해주세요.\n\n"
  const ChatIntro := "당신은 뉴스 분석 전문가입니다. 사용자가 제공한 뉴스 기사들을 바탕으로 질문에 답변해주세요.\n뉴스 기사 내용을 참고하여 정확하고 도움이 되는 답변을 한국어로 작성해주세요.\n\n"

  /** The label that opens the block of the article numbered `n`. */
  function Label(n: nat): string {
    "[기사 " + NatToDecimal(n) + "]\n"
  }

  /** The text one loop iteration appends for the article numbered `n`. */
  function Block(kind: PromptKind, n: nat, a: Article): string {
    match kind
    case SummaryPrompt => Label(n) + "제목: " + a.title + "\n내용: " + a.summary + "\n\n"
    case ChatPrompt => Label(n) + "제목: " + a.title + "\n발행일: " + a.published + "\n내용: " + a.summary + "\n\n"
  }

  /** The blocks of `articles`, numbered from 1 in list order. */
  function Blocks(kind: PromptKind, articles: seq<Article>): (blocks: string)
    ensures blocks == "" <==> articles == []
    decreases |articles|
  {
    if articles == [] then ""
    else Blocks(kind, articles[..|articles| - 1]) + Block(kind, |articles|, articles[|articles| - 1])
  }

  /** `news_text` once the loop is done. */
  function NewsText(kind: PromptKind, articles: seq<Article>): (newsText: string)
    ensures |NewsHeader| <= |newsText| && newsText[..|NewsHeader|] == NewsHeader
    ensures newsText == NewsHeader <==> articles == []
  {
    NewsHeader + Blocks(kind, articles)
  }

  function SummaryPromptText(newsText: string): string {
    SummaryIntro + newsText + "\n\n요약:"
  }

  function ChatPromptText(newsText: string, userMessage: string): string {
    ChatIntro + newsText + "\n\n사용자 질문: " + userMessage + "\n\n답변:"
  }

  /** `news_text` built as the source builds it: the header, then one block per article. */
  method BuildNewsText(kind: PromptKind, articles: seq<Article>) returns (newsText: string)
    ensures newsText == NewsText(kind, articles)
  {
    newsText := AppendBlocks(NewsHeader, kind, articles);
  }

  /** `for idx, article in enumerate(articles, 1): news_text += ...`, starting from `header`. */
  method AppendBlocks(header: string, kind: PromptKind, articles: seq<Article>) returns (text: string)
    ensures text == header + Blocks(kind, articles)
  {
    text := header;
    assert articles[..0] == [];
    for i := 0 to |articles|
      invariant text == header + Blocks(kind, articles[..i])
    {
      BlocksSnoc(header, kind, articles, i);
      text := text + Block(kind, i + 1, articles[i]);
    }
    assert articles[..|articles|] == articles;
  }

  lemma BlocksSnoc(header: string, kind: PromptKind, articles: seq<Article>, i: nat)
    requires i < |articles|
    ensures header + Blocks(kind, articles[..i]) + Block(kind, i + 1, articles[i]) == header + Blocks(kind, articles[..i + 1])
  {
    assert articles[..i + 1][..i] == articles[..i];
  }

  /** The reply once the model has been called: the stripped text, or the error. */
  function Outcome(reply: ModelReply, errorPrefix: string): (result: GatewayResult)
    ensures result.Reply? <==> reply.Answered?
    ensures result.Reply? ==> result.text == [] || (!IsSpace(result.text[0]) && !IsSpace(result.text[|result.text| - 1]))
    ensures result.Failure? ==>
      && |errorPrefix| <= |result.message| && result.message[..|errorPrefix|] == errorPrefix
      && result.details == Some(RetryHint)
  {
    match reply
    case Answered(t) => StripEnds(t); Reply(Strip(t))
    case Threw(e) => Failure(errorPrefix + e, Some(RetryHint))
  }

  /**
    `summarize_with_gemini` (news_chatbot.py, lines 170-214). The key is
    read from `store`; `sent` lists the prompts handed to `model`.
  */
  method Summarize(store: KeyStore, articles: seq<Article>, model: (string, string) -> ModelReply)
    returns (result: GatewayResult, sent: seq<string>)
    ensures StoredKey(store.file) == "" ==> result == NoKey && sent == []
    ensures StoredKey(store.file) != "" && articles == [] ==> result == NothingToSummarize && sent == []
    ensures StoredKey(store.file) != "" && articles != [] ==>
      && sent == [SummaryPromptText(NewsText(SummaryPrompt, articles))]
      && result == Outcome(model(StoredKey(store.file), sent[0]), "요약 생성 중 오류가 발생했습니다: ")
  {
    var apiKey := store.Get();
    if apiKey == "" {
      return NoKey, [];
    }
    if articles == [] {
      return NothingToSummarize, [];
    }
    var newsText := BuildNewsText(SummaryPrompt, articles);
    var prompt := SummaryPromptText(newsText);
    sent := [prompt];
    result := Outcome(model(apiKey, prompt), "요약 생성 중 오류가 발생했습니다: ");
  }

  /**
    `chat_with_gemini` (news_chatbot.py, lines 217-264). The user's message
    is not checked: an empty message still reaches the model.
  */
  method Chat(store: KeyStore, articles: seq<Article>, userMessage: string, model: (string, string) -> ModelReply)
    returns (result: GatewayResult, sent: seq<string>)
    ensures StoredKey(store.file) == "" ==> result == NoKey && sent == []
    ensures StoredKey(store.file) != "" && articles == [] ==> result == NothingToChat && sent == []
    ensures StoredKey(store.file) != "" && articles != [] ==>
      && sent == [ChatPromptText(NewsText(ChatPrompt, articles), userMessage)]
      && result == Outcome(model(StoredKey(store.file), sent[0]), "대화 생성 중 오류가 발생했습니다: ")
  {
    var apiKey := store.Get();
    if apiKey == "" {
      return NoKey, [];
    }
    if articles == [] {
      return NothingToChat, [];
    }
    var newsText := BuildNewsText(ChatPrompt, articles);
    var prompt := ChatPromptText(newsText, userMessage);
    sent := [prompt];
    result := Outcome(model(apiKey, prompt), "대화 생성 중 오류가 발생했습니다: ");
  }

  // ----- Numbering -----

  /** The blocks of a prefix of the list are a prefix of the blocks of the list. */
  lemma {:induction false} BlocksOfPrefix(kind: PromptKind, articles: seq<Article>, j: nat)
    requires j <= |articles|
    ensures StartsWith(Blocks(kind, articles), Blocks(kind, articles[..j]))
    decreases |articles|
  {
    if j < |articles| {
      var init := articles[..|articles| - 1];
      assert init[..j] == articles[..j];
      BlocksOfPrefix(kind, init, j);
      var b := Blocks(kind, init);
      assert Blocks(kind, articles)[..|b|] == b;
    } else {
      assert articles[..j] == articles;
    }
  }

  /**
    Article `k` (counting from 0) appears as the block numbered `k + 1`,
    directly after the blocks of the articles before it.
  */
  lemma ArticleNumbered(kind: PromptKind, articles: seq<Article>, k: nat)
    requires k < |articles|
    ensures StartsWith(Blocks(kind, articles), Blocks(kind, articles[..k]) + Block(kind, k + 1, articles[k]))
    ensures StartsWith(Block(kind, k + 1, articles[k]), Label(k + 1))
  {
    BlocksOfPrefix(kind, articles, k + 1);
    BlocksSnoc("", kind, articles, k);
    assert "" + Blocks(kind, articles[..k]) == Blocks(kind, articles[..k]);
    assert "" + Blocks(kind, articles[..k + 1]) == Blocks(kind, articles[..k + 1]);
    BlockOpensWithLabel(kind, k + 1, articles[k]);
  }

  lemma BlockOpensWithLabel(kind: PromptKind, n: nat, a: Article)
    ensures StartsWith(Block(kind, n, a), Label(n))
  {
    var opening := Label(n);
    assert Block(kind, n, a)[..|opening|] == opening;
  }

  /** The block of every article, under its number, is part of the news text. */
  lemma NewsTextListsArticle(kind: PromptKind, articles: seq<Article>, k: nat)
    requires k < |articles|
    ensures Contains(NewsText(kind, articles), Block(kind, k + 1, articles[k]))
  {
    ArticleNumbered(kind, articles, k);
    var block := Block(kind, k + 1, articles[k]);
    var blocks := Blocks(kind, articles);
    ContainsAfterPrefix(blocks, Blocks(kind, articles[..k]), block);
    ContainsAfter(NewsHeader, blocks, block);
  }

  /** Hence every article, under its number, is part of the summary prompt ... */
  lemma SummaryPromptListsArticle(articles: seq<Article>, k: nat)
    requires k < |articles|
    ensures Contains(SummaryPromptText(NewsText(SummaryPrompt, articles)), Block(SummaryPrompt, k + 1, articles[k]))
  {
    NewsTextListsArticle(SummaryPrompt, articles, k);
    ContainsInfix(SummaryIntro, NewsText(SummaryPrompt, articles), "\n\n요약:", Block(SummaryPrompt, k + 1, articles[k]));
  }

  /** ... and of the chat prompt, whose blocks also carry the date. */
  lemma ChatPromptListsArticle(articles: seq<Article>, userMessage: string, k: nat)
    requires k < |articles|
    ensures Contains(ChatPromptText(NewsText(ChatPrompt, articles), userMessage), Block(ChatPrompt, k + 1, articles[k]))
  {
    var newsText := NewsText(ChatPrompt, articles);
    var tail := "\n\n사용자 질문: " + userMessage + "\n\n답변:";
    NewsTextListsArticle(ChatPrompt, articles, k);
    ContainsInfix(ChatIntro, newsText, tail, Block(ChatPrompt, k + 1, articles[k]));
    assert ChatIntro + newsText + tail == ChatPromptText(newsText, userMessage);
  }

  /** Different article numbers give different labels. */
  lemma LabelsDistinct(m: nat, n: nat)
    requires Label(m) == Label(n)
    ensures m == n
  {
    var pre := "[기사 ";
    assert NatToDecimal(m) == Label(m)[|pre|..|Label(m)| - 2];
    assert NatToDecimal(n) == Label(n)[|pre|..|Label(n)| - 2];
    DecimalInjective(m, n);
  }
}
