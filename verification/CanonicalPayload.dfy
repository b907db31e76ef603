/** The canonical payload of a request, the sole input of the idempotency key. */
module CanonicalPayload {
  import opened CanonicalText
  import opened Common
  import opened Ordering

  const CURRENT_CANONICAL_VERSION := "v1.0"

  datatype Operation = Generation | Scoring | Other(name: string)

  /** A request; of an answer only its ID matters here. */
  datatype Request = Request(
    tenantId: string, operation: Operation, provider: string, model: string, systemPrompt: string,
    question: string, answerIds: seq<string>, maxTokens: int, temperature: real, seed: Option<int>)

  datatype Param = IntParam(i: int) | RealParam(r: real)

  datatype Message = Message(role: string, content: string)

  datatype Payload = Payload(
    tenantId: string, operation: Operation, provider: string, model: string, system: string,
    messages: seq<Message>, params: map<string, Param>, seed: Option<int>, version: string)

  /** strings.ToLower, whatever it does to letters of any script, is a parameter. */
  type Lowering = string -> string

  function Messages(req: Request): seq<Message> {
    match req.operation
    case Generation => if req.question == "" then [] else [Message("user", NormalizeText(req.question))]
    case Scoring => [Message("user", ScoringText(req.question, req.answerIds))]
    case Other(_) => []
  }

  function Params(req: Request): map<string, Param> {
    (if req.maxTokens > 0 then map["max_tokens" := IntParam(req.maxTokens)] else map[]) +
    (if req.temperature != 0.0 then map["temperature" := RealParam(req.temperature)] else map[])
  }

  function Canonical(lower: Lowering, req: Request): Payload {
    Payload(req.tenantId, req.operation, lower(TrimSpace(req.provider)), TrimSpace(req.model),
            NormalizeText(req.systemPrompt), Messages(req), Params(req), req.seed, CURRENT_CANONICAL_VERSION)
  }

  method ScoringContent(question: string, answerIds: seq<string>) returns (content: string)
    ensures content == ScoringText(question, answerIds)
  {
    content := "Question: " + NormalizeText(question);
    if |answerIds| > 0 {
      var ids: seq<string> := [];
      for i := 0 to |answerIds|
        invariant ids == answerIds[..i]
      {
        ids := ids + [answerIds[i]];
      }
      assert ids == answerIds;
      ids := Sort(LexLeq, ids);
      assert content + ("\nAnswers: " + Join(ids, ",")) == content + "\nAnswers: " + Join(ids, ",");
      content := content + "\nAnswers: " + Join(ids, ",");
    }
  }

  method BuildMessages(req: Request) returns (messages: seq<Message>)
    ensures messages == Messages(req)
  {
    messages := [];
    match req.operation {
      case Generation =>
        if req.question != "" {
          messages := messages + [Message("user", NormalizeText(req.question))];
        }
      case Scoring =>
        var content := ScoringContent(req.question, req.answerIds);
        messages := messages + [Message("user", content)];
      case Other(_) =>
    }
  }

  method BuildParams(req: Request) returns (params: map<string, Param>)
    ensures params == Params(req)
  {
    params := map[];
    if req.maxTokens > 0 {
      params := params["max_tokens" := IntParam(req.maxTokens)];
    }
    if req.temperature != 0.0 {
      params := params["temperature" := RealParam(req.temperature)];
    }
  }

  method BuildCanonicalPayload(lower: Lowering, req: Request) returns (payload: Payload)
    ensures payload == Canonical(lower, req)
  {
    var system := "";
    if req.systemPrompt != "" {
      system := NormalizeText(req.systemPrompt);
    } else {
      assert NormalizeText("") == "";
    }
    var messages := BuildMessages(req);
    var params := BuildParams(req);
    return Payload(req.tenantId, req.operation, lower(TrimSpace(req.provider)), TrimSpace(req.model),
                   system, messages, params, req.seed, CURRENT_CANONICAL_VERSION);
  }

  /** What must agree in the question and answers; a generation request also distinguishes a blank question from a
      missing one. */
  ghost predicate SameQuery(a: Request, b: Request) {
    match a.operation
    case Generation => Fields(a.question) == Fields(b.question) && (a.question == "" <==> b.question == "")
    case Scoring => Fields(a.question) == Fields(b.question) && multiset(a.answerIds) == multiset(b.answerIds)
    case Other(_) => true
  }

  function Positive(n: int): int { if n > 0 then n else 0 }

  lemma MessagesMergeExactly(a: Request, b: Request)
    requires CommaFree(a.answerIds) && CommaFree(b.answerIds) && a.operation == b.operation
    ensures Messages(a) == Messages(b) <==> SameQuery(a, b)
  {
    match a.operation {
      case Generation =>
        NormalizeMergesExactly(a.question, b.question);
      case Scoring =>
        ScoringTextMergesExactly(a.question, a.answerIds, b.question, b.answerIds);
        assert Messages(a)[0].content == ScoringText(a.question, a.answerIds);
        assert Messages(b)[0].content == ScoringText(b.question, b.answerIds);
      case Other(_) =>
    }
  }

  lemma ParamsMergeExactly(a: Request, b: Request)
    ensures Params(a) == Params(b) <==>
            Positive(a.maxTokens) == Positive(b.maxTokens) && a.temperature == b.temperature
  {
    var p, q := Params(a), Params(b);
    assert "max_tokens" in p <==> a.maxTokens > 0;
    assert "max_tokens" in q <==> b.maxTokens > 0;
    assert a.maxTokens > 0 ==> p["max_tokens"] == IntParam(a.maxTokens);
    assert b.maxTokens > 0 ==> q["max_tokens"] == IntParam(b.maxTokens);
    assert "temperature" in p <==> a.temperature != 0.0;
    assert "temperature" in q <==> b.temperature != 0.0;
    assert a.temperature != 0.0 ==> p["temperature"] == RealParam(a.temperature);
    assert b.temperature != 0.0 ==> q["temperature"] == RealParam(b.temperature);
  }

  /** Requests with comma-free answer IDs share a payload exactly when they agree on tenant, operation, provider and
      model up to case and outer space, words, answer IDs and effective parameters. */
  lemma PayloadMergesExactly(lower: Lowering, a: Request, b: Request)
    requires CommaFree(a.answerIds) && CommaFree(b.answerIds)
    ensures Canonical(lower, a) == Canonical(lower, b) <==>
              && a.tenantId == b.tenantId && a.operation == b.operation
              && lower(TrimSpace(a.provider)) == lower(TrimSpace(b.provider))
              && TrimSpace(a.model) == TrimSpace(b.model)
              && Fields(a.systemPrompt) == Fields(b.systemPrompt)
              && SameQuery(a, b)
              && Positive(a.maxTokens) == Positive(b.maxTokens) && a.temperature == b.temperature
              && a.seed == b.seed
  {
    NormalizeMergesExactly(a.systemPrompt, b.systemPrompt);
    ParamsMergeExactly(a, b);
    if a.operation == b.operation {
      MessagesMergeExactly(a, b);
    }
  }

  // ----- a canonical request stays as it is -----

  /** The request that the payload of `req` is already in canonical form. */
  function AsRequest(payload: Payload, req: Request): Request {
    Request(payload.tenantId, payload.operation, payload.provider, payload.model, payload.system,
            NormalizeText(req.question), Sort(LexLeq, req.answerIds),
            if "max_tokens" in payload.params && payload.params["max_tokens"].IntParam?
            then payload.params["max_tokens"].i else 0,
            if "temperature" in payload.params && payload.params["temperature"].RealParam?
            then payload.params["temperature"].r else 0.0,
            payload.seed)
  }

  /** Rebuilding the payload from the canonical request gives it again, exactly unless the request is for a generation
      with a question of blanks; each field of the payload thus comes from its own field of the request. */
  lemma PayloadIsCanonical(lower: Lowering, req: Request)
    requires lower(TrimSpace(lower(TrimSpace(req.provider)))) == lower(TrimSpace(req.provider))
    ensures var payload := Canonical(lower, req);
            Canonical(lower, AsRequest(payload, req)) == payload <==>
            !(req.operation.Generation? && req.question != "" && Fields(req.question) == [])
  {
    var payload := Canonical(lower, req);
    var again := AsRequest(payload, req);
    var left, right := TrimExact(req.model);
    TrimmedStays(TrimSpace(req.model));
    NormalizeIdempotent(req.systemPrompt);
    ParamsMergeExactly(req, again);
    NormalizeIdempotent(req.question);
    NormalizeIsJoinedWords(req.question);
    QuestionVanishes(req.question);
    ScoringIsCanonical(req.question, req.answerIds);
  }

  lemma QuestionVanishes(question: string)
    ensures NormalizeText(question) == "" <==> Fields(question) == []
  {
    NormalizeMergesExactly(question, "");
    assert Fields("") == [];
    assert NormalizeText("") == "";
  }

  lemma ScoringIsCanonical(question: string, ids: seq<string>)
    ensures ScoringText(NormalizeText(question), Sort(LexLeq, ids)) == ScoringText(question, ids)
  {
    NormalizeIdempotent(question);
    LexIsTotalOrder();
    SortSorts(LexLeq, ids);
    SortOfSorted(LexLeq, Sort(LexLeq, ids));
  }
}
