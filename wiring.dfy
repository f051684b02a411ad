/** How the page and the server fit together. */
module Wiring {
  import opened Wrappers
  import Dispatch
  import Chat
  import Server

  /** The route the page names for each selector value is one the server serves, and the right one. */
  lemma EveryEndpointIsServed(selected: string)
    ensures Server.RouteFor(Dispatch.Endpoint(selected)).Some?
    ensures Server.RouteFor(Dispatch.Endpoint(selected)) == Some(Server.SearchRoute) <==> selected == "search"
    ensures Server.RouteFor(Dispatch.Endpoint(selected)) == Some(Server.KbAnswerRoute) <==> selected == "kbanswer"
    ensures Server.RouteFor(Dispatch.Endpoint(selected)) == Some(Server.AnswerRoute) <==> selected != "search" && selected != "kbanswer"
  {
  }

  /**
   * Whatever text a helper produced, error texts included, the page shows it
   * as it is: a request whose JSON body has a `message` field is answered
   * with 200, so for it the page's own error notices appear only when the
   * transport fails.
   */
  lemma HelperTextIsShownVerbatim(text: string)
    ensures var response := Server.Respond(text);
      Chat.Reply(Chat.Loaded(response.status, response.message)) == text
  {
  }
}
