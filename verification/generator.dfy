/**
 * Response generation: knowledge-base context retrieval, the reply/ignore
 * filter, prompt assembly and the backend call with its fallback text.
 */
module Generator {
  import opened Wrappers
  import opened Text
  import opened EmailConnector

  type Embedding = seq<real>

  /** Backend sampling options (`llm_options`). */
  type Options = map<string, real>

  /** One row of a knowledge-base search. */
  datatype KnowledgeRow = KnowledgeRow(content: string, metadata: map<string, string>, distance: real)

  /**
   * The collaborators the generator calls. An exception is an `Err`.
   * `search` is `db.search_rag_documents`, whose wrapper never raises and
   * gives `None` after a database error.
   */
  datatype Backend = Backend(
    embed: string -> Result<Embedding>,
    search: (Embedding, int, Option<real>) -> Option<seq<KnowledgeRow>>,
    chat: (string, string, Options) -> Result<string>,
    loadTemplate: string -> Result<string>,
    format: (string, map<string, string>) -> Result<string>)

  /** The process-wide defaults read from the configuration. */
  datatype Settings = Settings(
    defaultModel: string,
    defaultOptions: Options,
    filterModel: string,
    defaultHistoryLimit: int,
    distanceThreshold: Option<real>)

  /** The keys of an avatar profile the generator reads; optional keys may be missing. */
  datatype Profile = Profile(
    name: string,
    personality: string,
    llmModel: Option<string>,
    llmOptions: Option<Options>,
    emailHistoryLimit: Option<int>)

  // ---------------------------------------------------------------------
  // Knowledge-base context

  const RagLimit := 3
  const RagSeparator := "\n---\n"

  /** A call made to a collaborator while retrieving context. */
  datatype RagCall = EmbedCall(text: string) | SearchCall(limit: int, threshold: Option<real>)

  function Contents(rows: seq<KnowledgeRow>): (r: seq<string>)
    ensures |r| == |rows| && forall i :: 0 <= i < |rows| ==> r[i] == rows[i].content
  {
    seq(|rows|, i requires 0 <= i < |rows| => rows[i].content)
  }

  /**
   * `_get_rag_context`: the context text and the calls made, in order. Every
   * failure gives the empty text; nothing is called for an empty query.
   */
  function GetRagContext(query: string, limit: int, threshold: Option<real>, b: Backend): (r: (string, seq<RagCall>))
    ensures query == "" ==> r == ("", [])
    ensures query != "" ==> 1 <= |r.1| <= 2 && r.1[0] == EmbedCall(query)
    ensures |r.1| == 2 <==> query != "" && b.embed(query).Ok?
    ensures |r.1| == 2 ==> r.1[1] == SearchCall(limit, threshold)
    ensures r.0 == "" || (
      && query != "" && b.embed(query).Ok?
      && var rows := b.search(b.embed(query).value, limit, threshold);
      rows.Some? && rows.value != [] && r.0 == Join(RagSeparator, Contents(rows.value)))
    ensures query != "" && b.embed(query).Ok? ==>
      var rows := b.search(b.embed(query).value, limit, threshold);
      rows.Some? && rows.value != [] ==> r.0 == Join(RagSeparator, Contents(rows.value))
  {
    if query == "" then ("", [])
    else match b.embed(query)
      case Err(_) => ("", [EmbedCall(query)])
      case Ok(v) =>
        var calls := [EmbedCall(query), SearchCall(limit, threshold)];
        match b.search(v, limit, threshold)
        case None => ("", calls)
        case Some(rows) => (if rows == [] then "" else Join(RagSeparator, Contents(rows)), calls)
  }

  /** The context lists the rows in store order: splitting the rows splits the text at a separator. */
  lemma RagContextInStoreOrder(a: seq<KnowledgeRow>, b: seq<KnowledgeRow>)
    requires a != [] && b != []
    ensures Join(RagSeparator, Contents(a + b)) == Join(RagSeparator, Contents(a)) + RagSeparator + Join(RagSeparator, Contents(b))
  {
    assert Contents(a + b) == Contents(a) + Contents(b);
    JoinAppend(RagSeparator, Contents(a), Contents(b));
  }

  // ---------------------------------------------------------------------
  // The reply/ignore filter

  const FilterInstructions :=
    "You are a strict email filter. Decide if the following email requires a reply. Respond ONLY with the single word 'REPLY' or 'IGNORE'.\n\n"
    + "REPLY to: Direct questions, requests for action, important project updates, or personal messages from known contacts.\n"
    + "IGNORE: Spam, advertisements, automatic notifications, newsletters, or messages that are purely informational and don't need a response.\n\n"
    + "Email to analyze:\n"

  /** The filter asks for deterministic output. */
  const FilterOptions: Options := map["temperature" := 0.0]

  function FilterPrompt(e: Email): string {
    FilterInstructions + "From: " + e.from + "\nSubject: " + e.subject + "\nBody: " + e.body + "\n\nYour decision:"
  }

  /**
   * `should_reply_to_email`: reply exactly when the filter model's answer
   * contains REPLY in any letter case; a backend error means do not reply.
   */
  function ShouldReplyToEmail(e: Email, s: Settings, b: Backend): (r: bool)
    ensures b.chat(s.filterModel, FilterPrompt(e), FilterOptions).Err? ==> !r
    ensures r <==> match b.chat(s.filterModel, FilterPrompt(e), FilterOptions)
                   case Ok(answer) => Contains(Upper(answer), "REPLY")
                   case Err(_) => false
  {
    match b.chat(s.filterModel, FilterPrompt(e), FilterOptions)
    case Err(_) => false
    case Ok(answer) =>
      UpperStripContains(answer, "REPLY");
      Contains(Upper(Strip(answer)), "REPLY")
  }

  /** A lower-case answer with surrounding whitespace is a reply. */
  lemma FilterAcceptsLowerCaseReply(e: Email, s: Settings, b: Backend)
    requires b.chat(s.filterModel, FilterPrompt(e), FilterOptions) == Ok(" reply\n")
    ensures ShouldReplyToEmail(e, s, b)
  {
    var u := Upper(" reply\n");
    assert u[1] == 'R' && u[2] == 'E' && u[3] == 'P' && u[4] == 'L' && u[5] == 'Y';
    assert u[1..6] == "REPLY";
    assert OccursAt(u, "REPLY", 1);
  }

  /** IGNORE is not a reply. */
  lemma FilterRejectsIgnore(e: Email, s: Settings, b: Backend)
    requires b.chat(s.filterModel, FilterPrompt(e), FilterOptions) == Ok("IGNORE")
    ensures !ShouldReplyToEmail(e, s, b)
  {
    var u := Upper("IGNORE");
    assert u[0] == 'I' && u[1] == 'G';
    forall i | 0 <= i <= |u| - 5 ensures !OccursAt(u, "REPLY", i) {
      assert u[i..i + 5][0] == u[i];
    }
  }

  // ---------------------------------------------------------------------
  // Prompt assembly and generation

  const FallbackReply := "I'm sorry, but I'm currently unable to process your request."
  const RagHeader := "\n\nRelevant information from knowledge base:\n"

  function ResolveModel(p: Profile, s: Settings): string { p.llmModel.GetOr(s.defaultModel) }

  function ResolveOptions(p: Profile, s: Settings): Options { p.llmOptions.GetOr(s.defaultOptions) }

  /**
   * Model and options fall back to the defaults independently, and options as
   * a whole: a key of the default options that the profile's own options lack
   * is not added to them.
   */
  lemma ConfigFallback(p: Profile, s: Settings, key: string)
    ensures ResolveModel(p, s) == if p.llmModel.Some? then p.llmModel.value else s.defaultModel
    ensures ResolveModel(p.(llmOptions := None), s) == ResolveModel(p, s)
    ensures ResolveOptions(p.(llmModel := None), s) == ResolveOptions(p, s)
    ensures p.llmOptions.None? ==> ResolveOptions(p, s) == s.defaultOptions
    ensures p.llmOptions.Some? && key !in p.llmOptions.value ==> key !in ResolveOptions(p, s)
  {
  }

  /** The `rag_context` value for retrieved text `ctx`: empty, or the text under a heading. */
  function RagSection(ctx: string): (r: string)
    ensures r == "" <==> ctx == ""
    ensures ctx != "" ==> |r| == |RagHeader| + |ctx| + 1
    ensures ctx != "" ==> r[..|RagHeader|] == RagHeader && r[|RagHeader|..|r| - 1] == ctx && r[|r| - 1] == '\n'
  {
    if ctx == "" then "" else RagHeader + ctx + "\n"
  }

  /** The context text retrieved for a context map: only a non-empty `rag_query` is looked up. */
  function RetrievedFor(entries: map<string, string>, s: Settings, b: Backend): string {
    if "rag_query" in entries && entries["rag_query"] != "" then
      GetRagContext(entries["rag_query"], RagLimit, s.distanceThreshold, b).0
    else ""
  }

  /**
   * What `_generate_response` returns for the context map `entries`: an error
   * only when the template cannot be loaded or filled; a backend error gives
   * the fixed fallback text.
   */
  function ResponseTo(p: Profile, s: Settings, templateName: string, entries: map<string, string>, b: Backend): (r: Result<string>)
    ensures r.Err? <==> (b.loadTemplate(templateName).Err? ||
      b.format(b.loadTemplate(templateName).value, entries["rag_context" := RagSection(RetrievedFor(entries, s, b))]).Err?)
    ensures r.Ok? ==>
      var prompt := b.format(b.loadTemplate(templateName).value, entries["rag_context" := RagSection(RetrievedFor(entries, s, b))]).value;
      var answer := b.chat(ResolveModel(p, s), prompt, ResolveOptions(p, s));
      (answer.Ok? ==> r.value == answer.value) && (answer.Err? ==> r.value == FallbackReply)
  {
    match b.loadTemplate(templateName)
    case Err(m) => Err(m)
    case Ok(template) =>
      match b.format(template, entries["rag_context" := RagSection(RetrievedFor(entries, s, b))])
      case Err(m) => Err(m)
      case Ok(prompt) =>
        match b.chat(ResolveModel(p, s), prompt, ResolveOptions(p, s))
        case Ok(content) => Ok(content)
        case Err(_) => Ok(FallbackReply)
  }

  /** The caller's context map, which `_generate_response` updates in place. */
  class Context {
    var entries: map<string, string>

    constructor (entries: map<string, string>)
      ensures this.entries == entries
    {
      this.entries := entries;
    }
  }

  /**
   * `_generate_response`: sets `rag_context` in the caller's map (unless the
   * template cannot be loaded), fills the template and asks the backend.
   */
  method GenerateResponse(p: Profile, s: Settings, templateName: string, ctx: Context, b: Backend) returns (reply: Result<string>)
    modifies ctx
    ensures reply == ResponseTo(p, s, templateName, old(ctx.entries), b)
    ensures b.loadTemplate(templateName).Err? ==> ctx.entries == old(ctx.entries)
    ensures b.loadTemplate(templateName).Ok? ==>
      ctx.entries == old(ctx.entries)["rag_context" := RagSection(RetrievedFor(old(ctx.entries), s, b))]
  {
    var model := ResolveModel(p, s);
    var options := ResolveOptions(p, s);
    var template := b.loadTemplate(templateName);
    if template.Err? {
      return Err(template.message);
    }
    var ragQuery := if "rag_query" in ctx.entries then ctx.entries["rag_query"] else "";
    var ragContext := if ragQuery != "" then GetRagContext(ragQuery, RagLimit, s.distanceThreshold, b).0 else "";
    if ragContext != "" {
      ctx.entries := ctx.entries["rag_context" := RagHeader + ragContext + "\n"];
    } else {
      ctx.entries := ctx.entries["rag_context" := ""];
    }
    var prompt := b.format(template.value, ctx.entries);
    if prompt.Err? {
      return Err(prompt.message);
    }
    var response := b.chat(model, prompt.value, options);
    if response.Ok? {
      reply := Ok(response.value);
    } else {
      reply := Ok(FallbackReply);
    }
  }

  // ---------------------------------------------------------------------
  // Email replies

  const EmailTemplate := "email_reply_template.txt"

  /** A stored history row, as `get_email_history` returns it (newest first). */
  datatype HistoryRow = HistoryRow(sender: string, message: string)

  /**
   * `db.get_email_history(avatar_id, sender, limit)`: `None` when the query
   * raised, because the database wrapper then returns None.
   */
  type HistoryLookup = (string, string, int) -> Option<seq<HistoryRow>>

  function Line(h: HistoryRow): string { h.sender + ": " + h.message }

  /** One line per row, oldest first: the reverse of the store's order. */
  function HistoryLines(rows: seq<HistoryRow>): (r: seq<string>)
    ensures |r| == |rows|
    ensures forall k :: 0 <= k < |rows| ==> r[k] == Line(rows[|rows| - 1 - k])
  {
    seq(|rows|, k requires 0 <= k < |rows| => Line(rows[|rows| - 1 - k]))
  }

  function HistoryText(rows: seq<HistoryRow>): string {
    Join("\n", HistoryLines(rows))
  }

  /** The newest row (first in store order) is the last line. */
  lemma HistoryNewestLast(newest: HistoryRow, rows: seq<HistoryRow>)
    requires rows != []
    ensures HistoryText([newest] + rows) == HistoryText(rows) + "\n" + Line(newest)
  {
    var all := HistoryLines([newest] + rows);
    assert all[..|all| - 1] == HistoryLines(rows);
  }

  /** An older row (later in store order) comes before every line already there. */
  lemma HistoryOlderFirst(rows: seq<HistoryRow>, older: HistoryRow)
    requires rows != []
    ensures HistoryText(rows + [older]) == Line(older) + "\n" + HistoryText(rows)
  {
    assert HistoryLines(rows + [older]) == [Line(older)] + HistoryLines(rows);
    JoinAppend("\n", [Line(older)], HistoryLines(rows));
  }

  function HistoryLimit(p: Profile, s: Settings): int { p.emailHistoryLimit.GetOr(s.defaultHistoryLimit) }

  /** The context map `generate_reply` builds; the retrieval query is the email body. */
  function EmailContext(p: Profile, e: Email, history: string): (r: map<string, string>)
    ensures r.Keys == {"avatar_name", "personality", "conversation_history", "email_from", "email_subject", "email_body", "rag_query"}
    ensures r["rag_query"] == r["email_body"] == e.body
    ensures r["conversation_history"] == history
  {
    map["avatar_name" := p.name, "personality" := p.personality, "conversation_history" := history,
        "email_from" := e.from, "email_subject" := e.subject, "email_body" := e.body, "rag_query" := e.body]
  }

  /**
   * `reversed(history)` as written: when the history query raised, the
   * database wrapper returned None and rendering it raises a TypeError.
   */
  function HistoryTextAsWritten(history: Option<seq<HistoryRow>>): (r: Result<string>)
    ensures history.Some? ==> r == Ok(HistoryText(history.value))
  {
    match history
    case Some(rows) => Ok(HistoryText(rows))
    case None => Err("'NoneType' object is not reversible")
  }

  /**
   * `generate_reply` as written: the history is rendered before anything
   * else, so a failed history query raises before the template is loaded.
   */
  function GenerateReplyAsWritten(p: Profile, s: Settings, e: Email, avatarId: string, lookup: HistoryLookup, b: Backend)
    : (r: Result<string>)
    ensures lookup(avatarId, e.from, HistoryLimit(p, s)).None? ==> r.Err?
    ensures lookup(avatarId, e.from, HistoryLimit(p, s)).Some? ==>
      r == ResponseTo(p, s, EmailTemplate, EmailContext(p, e, HistoryText(lookup(avatarId, e.from, HistoryLimit(p, s)).value)), b)
  {
    match HistoryTextAsWritten(lookup(avatarId, e.from, HistoryLimit(p, s)))
    case Err(m) => Err(m)
    case Ok(conversation) => ResponseTo(p, s, EmailTemplate, EmailContext(p, e, conversation), b)
  }

  /**
   * As written, a failed history query aborts the reply even when template,
   * prompt and backend would all have answered, while the corrected
   * `GenerateReply` then answers from an empty history.
   */
  lemma HistoryQueryFailureAborts(p: Profile, s: Settings, e: Email, avatarId: string, lookup: HistoryLookup, b: Backend)
    requires lookup(avatarId, e.from, HistoryLimit(p, s)).None?
    requires b.loadTemplate(EmailTemplate).Ok?
    requires b.format(b.loadTemplate(EmailTemplate).value,
      EmailContext(p, e, "")["rag_context" := RagSection(RetrievedFor(EmailContext(p, e, ""), s, b))]).Ok?
    ensures GenerateReplyAsWritten(p, s, e, avatarId, lookup, b).Err?
    ensures ResponseTo(p, s, EmailTemplate, EmailContext(p, e, ""), b).Ok?
  {
  }

  /**
   * `generate_reply`, with a failed history query read as an empty history
   * (see HistoryTextAsWritten for the code as written).
   */
  method GenerateReply(p: Profile, s: Settings, e: Email, avatarId: string, lookup: HistoryLookup, b: Backend)
    returns (reply: Result<string>)
    ensures var history := lookup(avatarId, e.from, HistoryLimit(p, s));
      reply == ResponseTo(p, s, EmailTemplate, EmailContext(p, e, HistoryText(history.GetOr([]))), b)
    ensures lookup(avatarId, e.from, HistoryLimit(p, s)).None? ==>
      reply == ResponseTo(p, s, EmailTemplate, EmailContext(p, e, ""), b)
  {
    var limit := HistoryLimit(p, s);
    var history := lookup(avatarId, e.from, limit).GetOr([]);
    var conversation := HistoryText(history);
    var ctx := new Context(EmailContext(p, e, conversation));
    reply := GenerateResponse(p, s, EmailTemplate, ctx, b);
  }
}
