/**
  The two POST handlers of app.py, `generate` and `generate_pdf_route`: which
  status and body each request gets. What the language-model endpoint
  answers, whether a text parses as JSON and whether the PDF engine accepts a
  story are parameters; error messages are reduced to tags.
*/
module Routes {
  import opened Wrappers
  import opened Extract
  import opened Story
  import opened Render

  /** What the language-model endpoint answered, as far as `generate` looks at it. */
  datatype Upstream =
    /** The HTTP call itself raised. */
    | Unreachable
    /**
      An HTTP answer: its status, its body as text, and the text of the first
      part of the first candidate, or `None` when the body is not JSON of that
      shape.
    */
    | Answer(status: int, text: string, candidate: Option<string>)

  /** The reasons for an error response. */
  datatype Failure =
    | MissingIdea
    | NoData
    | Forbidden
    | UpstreamError(code: int, text: string)
    | Internal

  /** The body of a response: a brief, a PDF (given by its story), or an error. */
  datatype Body =
    | Brief(json: string)
    | Document(story: seq<Block>)
    | Error(failure: Failure)

  datatype Response = Response(status: int, body: Body)

  /** `generate` as seen from outside: the user part sent upstream, if any call is made, and the response. */
  datatype Exchange = Exchange(sent: Option<string>, response: Response)

  /** What precedes the idea in the user part of the request to the model. */
  const IdeaLabel := "Id\U{E9}e utilisateur : "

  /**
    How `generate` answers once the model has answered: 403 passes on as a
    forbidden error, any other status but 200 passes on with the upstream
    body, and a 200 answer yields the cleaned candidate text when it parses
    as JSON. Everything else (no answer, an answer of the wrong shape, a text
    that does not parse) is an internal error.
  */
  function Reply(upstream: Upstream, loads: string -> bool): (r: Response)
    ensures upstream.Answer? && upstream.status == 403 ==> r == Response(403, Error(Forbidden))
    ensures upstream.Answer? && upstream.status != 403 && upstream.status != 200 ==>
              r == Response(upstream.status, Error(UpstreamError(upstream.status, upstream.text)))
    ensures r.status == 200 <==>
              upstream.Answer? && upstream.status == 200 && upstream.candidate.Some?
              && loads(CleanGemini(upstream.candidate.value))
    ensures r.status == 200 ==> r.body == Brief(CleanGemini(upstream.candidate.value))
    ensures (upstream.Unreachable? || upstream.status == 200) && r.status != 200 ==>
              r == Response(500, Error(Internal))
  {
    match upstream
    case Unreachable => Response(500, Error(Internal))
    case Answer(status, text, candidate) =>
      if status == 403 then Response(403, Error(Forbidden))
      else if status != 200 then Response(status, Error(UpstreamError(status, text)))
      else
        match candidate
        case None => Response(500, Error(Internal))
        case Some(raw) =>
          var clean := CleanGemini(raw);
          if loads(clean) then Response(200, Brief(clean)) else Response(500, Error(Internal))
  }

  /**
    `generate`: a missing or empty idea is refused with 400 before any call
    upstream; otherwise the idea is sent, after its label, and the answer
    decides the response.
  */
  function Generate(idea: Option<string>, upstream: Upstream, loads: string -> bool): (r: Exchange)
    ensures r.sent.Some? <==> idea.Some? && idea.value != []
    ensures r.sent.Some? ==> r.sent.value == IdeaLabel + idea.value && r.response == Reply(upstream, loads)
    ensures r.sent.None? ==> r.response == Response(400, Error(MissingIdea))
  {
    var text := if idea.Some? then idea.value else "";
    if text == [] then Exchange(None, Response(400, Error(MissingIdea)))
    else Exchange(Some(IdeaLabel + text), Reply(upstream, loads))
  }

  /**
    A brief that `generate` returns starts with `'{'`, ends with `'}'`, holds
    no fence marker, and is left unchanged by cleaning it again.
  */
  lemma GenerateBrief(idea: Option<string>, upstream: Upstream, loads: string -> bool)
    requires Generate(idea, upstream, loads).response.status == 200
    ensures var body := Generate(idea, upstream, loads).response.body;
            body.Brief? && BraceDelimited(body.json) && CleanGemini(body.json) == body.json
  {
    CleanGeminiIdempotent(upstream.candidate.value);
  }

  /**
    The status of `generate` is 200, 400, 403, 500, or the upstream status
    passed on.
  */
  lemma GenerateStatus(idea: Option<string>, upstream: Upstream, loads: string -> bool)
    ensures var status := Generate(idea, upstream, loads).response.status;
            status in {200, 400, 403, 500} || (upstream.Answer? && status == upstream.status)
  {
  }

  /**
    `generate_pdf_route`: no data, or an empty record, is refused with 400;
    otherwise the story of the record is built and handed to the PDF engine,
    and the PDF is the response, or a 500 when the engine fails.
  */
  method GeneratePdfRoute(data: Option<Record>, builds: seq<Block> -> bool) returns (r: Response)
    ensures r == Response(400, Error(NoData)) <==> data.None? || data.value == []
    ensures data.Some? && data.value != [] && builds(StoryOf(data.value)) ==>
              r == Response(200, Document(StoryOf(data.value)))
    ensures data.Some? && data.value != [] && !builds(StoryOf(data.value)) ==>
              r == Response(500, Error(Internal))
  {
    if data.None? || data.value == [] {
      return Response(400, Error(NoData));
    }
    var story := BuildStory(data.value);
    if builds(story) {
      r := Response(200, Document(story));
    } else {
      r := Response(500, Error(Internal));
    }
  }
}
