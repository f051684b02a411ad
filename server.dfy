/**
 * The POST routes of app.py and the replies they send. Each handler passes
 * the `message` of the request body to its helper and answers with status 200
 * and a body whose only field, `message`, is the helper's text, whatever that
 * text is.
 */
module Server {
  import opened Wrappers
  import opened KnowledgeBase

  /** A reply: the status and the `message` field of the JSON body. */
  datatype Response = Response(status: int, message: string)

  datatype Route = KbAnswerRoute | SearchRoute | AnswerRoute

  /** The POST routes the application registers. */
  function RouteFor(path: string): (route: Option<Route>)
    ensures route.Some? <==> path == "/kbanswer" || path == "/search" || path == "/answer"
  {
    match path
    case "/kbanswer" => Some(KbAnswerRoute)
    case "/search" => Some(SearchRoute)
    case "/answer" => Some(AnswerRoute)
    case _ => None
  }

  /** What every handler returns for the text its helper produced. */
  function Respond(text: string): (response: Response)
    ensures response.status == 200 && response.message == text
  {
    Response(200, text)
  }

  /** `/kbanswer`. */
  method KbAnswer<Q>(qa: LazyLoader<Q>, build: Attempt<Q>, message: string,
                     invoke: (Q, string) -> Attempt<string>) returns (response: Response)
    modifies qa
    ensures LoadedOnce(qa, build)
    ensures response == Respond(AnswerText(qa.cached, message, invoke))
  {
    var text := AnswerFromKnowledgebase(qa, build, message, invoke);
    response := Respond(text);
  }

  /** `/search`. */
  method Search<V>(vectordb: LazyLoader<V>, build: Attempt<V>, message: string,
                   search: (V, string) -> Attempt<seq<string>>) returns (response: Response)
    modifies vectordb
    ensures LoadedOnce(vectordb, build)
    ensures response == Respond(SearchText(vectordb.cached, message, search))
  {
    var text := SearchKnowledgebase(vectordb, build, message, search);
    response := Respond(text);
  }

  /** `/answer`, given what the conversation chain predicts for the message. */
  method Answer(prediction: Attempt<string>) returns (response: Response)
    ensures response == Respond(ChatbotText(prediction))
  {
    response := Respond(ChatbotText(prediction));
  }
}
