# Ziggy chat: a Dafny model

Ziggy is a single-page chat assistant. The page (`static/main.js`) takes a
message from a text box and posts it to one of three Flask routes
(`app.py`): `/answer`, `/kbanswer` or `/search`. It then appends the reply to
a chat container, and every assistant entry gets a copy control that writes a
plain-text version of it to the clipboard. On the server, `/kbanswer` and
`/search` use a question-answering chain and a vector store. Both are built
lazily, the first time a request needs them. Each helper turns every failure
into a fixed notice or an `Error: ...` text, so a request whose JSON body has
a `message` field is always answered with status 200.

The model has these modules:

- `Strings` (strings.dfy): the ECMAScript whitespace class, which is the set
  that both `\s` and `String.prototype.trim` use. Also trimming, and the
  relation "obtained by deleting characters".
- `Clipboard` (clipboard.dfy): the plain text that the copy control derives.
  It applies four global regular-expression deletions in order: pairs of
  asterisks, single asterisks, `#{1,6}\s`, and backticks. Each deletion
  scans left to right and resumes after a match, and each is written as that
  recursion. The hash pattern is greedy, and backtracking never gives another
  match, because a shorter run is followed by `#`, which is not whitespace.
  So a match is exactly "the run of up to six leading hashes, followed by
  whitespace" (`HeadingMarkerIsGreedyRun`).
- `Dispatch` (dispatch.dfy): the selector-to-route `switch`.
- `Chat` (chat.dfy): the page as a class. The chat container is a sequence of
  entries (a role and the raw text). The class also holds the loading flag,
  the text box and the selector. The request is split into the send step,
  which returns the request, and a completion step, which takes what became
  of the request as its input.
- `KnowledgeBase` (knowledge_base.dfy):
  - the lazy loader shared by `load_db` and `load_vectordb`;
  - the numbered source listing, built by a loop;
  - the texts that `search_knowledgebase`, `answer_from_knowledgebase` and
    `answer_as_chatbot` return.

  What a call into the retrieval libraries returns or raises is an input
  (`Attempt`).
- `Server` (server.dfy): the three POST routes and their replies.
- `Wiring` (wiring.dfy): how the page and the server fit together.

The copy step for `#{1,6}\s` has no anchor and matches `\s`, not only a
space. A marker in the middle of a line is therefore deleted too, and of a
run of more than six hashes the first ones stay (`HeadingMarkerInProse`).

## Model

| member | source | states |
|---|---|---|
| Strings.Trim | static/main.js:3 | The trimmed message is never longer than the input, and it is empty or starts and ends with a non-whitespace character. |
| Strings.TrimStartDropsWhitespace | static/main.js:3 | Trimming the start drops only whitespace and keeps the rest of the text as it was. |
| Strings.TrimEndDropsWhitespace | static/main.js:3 | Trimming the end drops only whitespace and keeps the start of the text as it was. |
| Strings.TrimEmptyIffAllWhitespace | static/main.js:3-6 | The trimmed message is empty exactly when the text box is empty or all whitespace, which is the case `sendMessage` ignores. |
| Dispatch.Endpoint | static/main.js:21-33 | "search" goes to `/search` and "kbanswer" to `/kbanswer`, in both directions. Every other value, "answer" included, goes to `/answer`. |
| Chat.RoleOf | static/main.js:71-98 | The assistant branch is taken exactly for the sender "assistant"; any other sender takes the user branch. |
| Chat.Reply | static/main.js:37-51 | Status 200 shows the reply's `message` and any other status shows the processing-error notice. A transport failure shows the network-error notice. |
| Chat.SendableIsTrimmed | static/main.js:3-8 | The texts a user entry can hold are exactly the non-empty texts that trimming leaves unchanged. |
| Chat.AppendKeepsValid | static/main.js:8 | Appending an assistant entry, or a user entry with sendable text, keeps every user entry sendable. |
| Chat.ChatController.ShowLoading | static/main.js:58-65 | The loading indicator is shown exactly when asked. |
| Chat.ChatController.DisplayMessage | static/main.js:67-120 | Exactly one entry is appended at the end, with the sender's role and the raw text. Earlier entries are unchanged. |
| Chat.ChatController.OnPageLoad | static/main.js:171-173 | Page load appends the welcome entry from the assistant. |
| Chat.ChatController.SendMessage | static/main.js:1-56 | A blank text box changes nothing and sends nothing; the text box is not cleared. Otherwise one user entry with the trimmed text is appended and the indicator shows. The request goes to `Endpoint(selected)` and carries the trimmed text, and the text box is emptied. Every user entry stays sendable. |
| Chat.ChatController.Complete | static/main.js:37-51 | Completion hides the indicator and appends exactly one assistant entry with `Reply(outcome)`. |
| Chat.ChatController.CopyToClipboard | static/main.js:122-128 | The copy control of an assistant entry yields `PlainText` of that entry's own text. The result is a subsequence of that text and has no asterisk or backtick. |
| Chat.ChatController.ClearChat | static/main.js:149-153 | After clearing, the container holds only the cleared notice from the assistant. The indicator is left alone. |
| Clipboard.StripBoldLeavesNoPair | static/main.js:125 | After the first deletion no two adjacent asterisks remain. |
| Clipboard.StripBold | static/main.js:125 | The first deletion never lengthens the text and deletes an even number of characters, since it deletes pairs. |
| Clipboard.StripBoldDeletesOnlyAsterisks | static/main.js:125 | The first deletion removes asterisks only: every other character occurs as often as before. |
| Clipboard.EraseAll | static/main.js:126 | After a single-character deletion that character does not occur. |
| Clipboard.EraseAllKeepsOthers | static/main.js:126 | A single-character deletion removes every occurrence of that character and keeps every other character as often as it occurred. With `EraseAllIsSubsequence` it keeps them in order. |
| Clipboard.EraseAllIsSubsequence | static/main.js:126 | A single-character deletion only deletes: the result is the input with characters removed. |
| Clipboard.HashRunIsMaximal | static/main.js:127 | The capped hash run consists of hashes. It stops short of the cap only at the end of the text or at a character that is not a hash. |
| Clipboard.HeadingMarkerIsGreedyRun | static/main.js:127 | `#{1,6}\s` matches a prefix of length j+1 exactly when the greedy hash run has length j and is followed by whitespace. |
| Clipboard.StripHeadings | static/main.js:127 | The third deletion never lengthens the text. |
| Clipboard.StripHeadingsIsSubsequence | static/main.js:127 | The third deletion only deletes: the result is the input with characters removed. |
| Clipboard.StripHeadingsKeepsContent | static/main.js:127 | Every character that is not an asterisk, backtick, hash or whitespace survives the third deletion, in order. |
| Clipboard.StripHeadingsDeletesOnlyHashesAndWhitespace | static/main.js:127 | The third deletion deletes only hashes and whitespace: every other character, asterisks and backticks included, occurs as often as before. |
| Clipboard.PlainText | static/main.js:124-128 | The copied text has no backtick. |
| Clipboard.PlainTextIsSubsequence | static/main.js:124-128 | The copied text is the entry's text with some characters deleted, so it is never longer. |
| Clipboard.PlainTextHasNoEmphasisOrCode | static/main.js:125-128 | The copied text has no asterisk and no backtick. |
| Clipboard.PlainTextKeepsContent | static/main.js:124-128 | Only markup is deleted. Every character that is not an asterisk, backtick, hash or whitespace survives, in order. |
| Clipboard.StripBoldThenEraseAsterisks | static/main.js:125-126 | The first two deletions together delete exactly the asterisks, whichever pairs the first one takes. |
| Clipboard.PlainTextDeletesAsterisksFirst | static/main.js:124-128 | The copied text is: all asterisks deleted, then heading markers, then backticks. |
| Clipboard.MixedMarkdownExample | static/main.js:124-128 | "**a** *b* # c `d`" is copied as "a b c d" for any prose a, b, c, d. For example "**bold** *em* # Head `code`" gives "bold em Head code". |
| Clipboard.PlainTextOfProse | static/main.js:124-128 | A text without asterisks, hashes or backticks is copied unchanged. |
| Clipboard.StripHeadingsOfHashRun | static/main.js:127 | A run of n hashes followed by whitespace loses min(n, 6) hashes and the whitespace character. |
| Clipboard.HeadingMarkerInProse | static/main.js:127 | A heading marker in the middle of prose is deleted with one whitespace character after it. A run longer than six keeps its first n-6 hashes. |
| Clipboard.HashBeforeBacktick | static/main.js:127-128 | A hash followed by a backtick is no heading marker, so "#`" + whitespace + prose is copied as "#" + whitespace + prose. |
| Clipboard.PlainTextNotIdempotent | static/main.js:124-128 | Deriving twice can delete more than deriving once, because backticks are deleted after heading markers. |
| KnowledgeBase.ErrorText | app.py:82-83 | The text for a caught exception (here and at app.py:105-106 and 124-125) is "Error: " followed by exactly the exception's text. |
| KnowledgeBase.Decimal | app.py:103 | `str(count)` is a non-empty string of decimal digits. |
| KnowledgeBase.DecimalRoundTrip | app.py:103 | The number in a listing header (all digits, by `Decimal`) has no leading zero and reads back as the count it was written from. |
| KnowledgeBase.SourceBlock | app.py:103 | A block is "Source ", the number, a newline, the document's text, and a blank line, each at its position. |
| KnowledgeBase.ListingFrom | app.py:101-104 | The listing is empty exactly when there are no documents. |
| KnowledgeBase.Listing | app.py:101-104 | The listing numbered from 1 is empty exactly when there are no documents. |
| KnowledgeBase.ListingExtend | app.py:101-104 | One more document adds its block, with the next number, at the end of the listing. |
| KnowledgeBase.ListingStartsWithSource | app.py:101-104 | A non-empty listing starts with "Source ". |
| KnowledgeBase.FormatSources | app.py:101-104 | The loop builds the in-order concatenation of "Source " + count + "\n" + content + "\n\n", counting from 1. |
| KnowledgeBase.SearchText | app.py:85-106 | Without a store the search returns the unavailable notice, whatever the search would have returned. With a store, an exception becomes its error text, no documents give the no-sources notice, and otherwise the text is the listing of the documents. |
| KnowledgeBase.SearchTextIsUnambiguous | app.py:91-106 | Each of the four outcomes gives a text that identifies it: no store, an exception, no documents, or a listing. |
| KnowledgeBase.AnswerText | app.py:71-83 | Without a chain the unavailable notice is returned and nothing is asked. With a chain, an exception becomes its error text and otherwise the chain's result is returned as it is. |
| KnowledgeBase.ChatbotText | app.py:108-125 | A prediction is returned as it is; an exception becomes its error text. |
| KnowledgeBase.LazyLoader.constructor | app.py:17-19 | A handle (`qa` or `vectordb`) starts unset, and no build has been tried yet, so the first `Load` builds. |
| KnowledgeBase.LazyLoader.Load | app.py:21-48 | A set handle is returned and nothing is built. An unset handle is built once: a success sets it and returns it, and a failure returns None and leaves it unset for a retry. `load_vectordb` (app.py:50-69) is the same loader. |
| KnowledgeBase.SearchKnowledgebase | app.py:85-106 | The store is loaded or reused once, and the text is `SearchText` of the resulting handle. |
| KnowledgeBase.AnswerFromKnowledgebase | app.py:71-83 | The chain is loaded or reused once, and the text is `AnswerText` of the resulting handle. |
| Server.RouteFor | app.py:127-155 | Exactly `/kbanswer`, `/search` and `/answer` are served as POST routes. |
| Server.Respond | app.py:139 | Every reply has status 200 and the helper's text as its `message`. |
| Server.KbAnswer | app.py:127-139 | `/kbanswer` replies 200 with `answer_from_knowledgebase`'s text. |
| Server.Search | app.py:141-153 | `/search` replies 200 with `search_knowledgebase`'s text. |
| Server.Answer | app.py:155-163 | `/answer` replies 200 with `answer_as_chatbot`'s text, which by `ChatbotText` is the error text when the prediction raised. |
| Wiring.EveryEndpointIsServed | static/main.js:21-35 | Every route the page can choose is served, and by the handler the selector names. |
| Wiring.HelperTextIsShownVerbatim | static/main.js:41-43 | Any helper text, error texts included, is shown exactly as sent. |

## Left out

- DOM rendering is not modelled: element creation, CSS classes, labels, the `innerHTML` markup, scrolling and the clock- and locale-dependent timestamp (static/main.js:69-119). An entry holds the role and the raw text.
- The markdown renderer `marked.parse` (static/main.js:94) is third-party code. Entries keep the raw assistant text.
- The XHR transport, the `Content-Type` header and `JSON.parse` (static/main.js:18, 35-36, 42, 52) are not modelled. The outcome of a request is an input. A reply body without a `message` field is not modelled.
- The clipboard write and the copy button's label changes and 2-second reverts (static/main.js:130-146) are asynchronous I/O and timers.
- Overlapping requests and the order their callbacks arrive in are not modelled. The model has one request in flight at a time.
- The event-listener wiring (static/main.js:155-168) is left out. `SendMessage`, `ClearChat` and `OnPageLoad` are the handlers themselves.
- The initial page (the template behind the `/` route, app.py:165-167) is not part of this model. The constructor starts from an empty container.
- The LangChain, Cohere and Chroma calls are inputs: embeddings, the retriever, `similarity_search`, `invoke` and the conversation chain with its memory. Only what each call returns or the text of what it raises is modelled.
- `answer_as_chatbot` (app.py:108-125) is modelled only for how its result and its exceptions become text. The conversation chain and its memory are not modelled.
- A request whose body is not JSON or has no `message` field fails in Flask before any helper runs (app.py:133, 147, 157), outside every `try`. Its error status is not modelled: the routes take the message as given.
- Flask itself is not modelled: `request.json`, environment variables, the port, and `print` logging (app.py:9-15, 31, 44, 47, 59, 65, 68, 169-172).
- Strings are sequences of Unicode code points, whereas JavaScript strings are UTF-16 code units. This only matters for characters outside the Basic Multilingual Plane, and none of them is whitespace or markup.
