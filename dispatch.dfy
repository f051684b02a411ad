/**
 * Which server route a chat message goes to: the `switch` in `sendMessage`
 * (static/main.js) over the value of the function selector.
 */
module Dispatch {

  /** The selector values the page offers, and the route each one names. */
  function Endpoint(selected: string): (url: string)
    ensures url == "/search" <==> selected == "search"
    ensures url == "/kbanswer" <==> selected == "kbanswer"
    ensures url == "/answer" <==> selected != "search" && selected != "kbanswer"
  {
    match selected
    case "search" => "/search"
    case "kbanswer" => "/kbanswer"
    case "answer" => "/answer"
    case _ => "/answer"
  }
}
