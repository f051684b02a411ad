/**
 * The chat page (static/main.js) as a state machine. The chat container is the
 * sequence of entries shown, the loading indicator is a flag, and the text box
 * and the function selector are strings. The network exchange is split into
 * the send step and a completion step whose outcome is given.
 */
module Chat {
  import opened Wrappers
  import opened Strings
  import opened Dispatch
  import opened Clipboard

  datatype Role = User | Assistant

  /** One message in the chat container: who it is from and its raw text. */
  datatype Entry = Entry(role: Role, text: string)

  /** What became of the request: a response with a status and the `message` field of its body, or a transport failure. */
  datatype Outcome = Loaded(status: int, message: string) | NetworkError

  /** A POST to `url` whose JSON body carries `message`. */
  datatype Request = Request(url: string, message: string)

  const WelcomeText := "Hello! I'm Ziggy, your Quantum Computing assistant. Ask me anything about quantum computing, or search my knowledge base!"
  const ClearedText := "Chat cleared! How can I help you today?"
  const ServerErrorText := "Sorry, there was an error processing your request."
  const NetworkErrorText := "Sorry, there was a network error."

  /** `displayMessage` takes the assistant branch for the sender "assistant" and the user branch for any other. */
  function RoleOf(sender: string): (role: Role)
    ensures role == Assistant <==> sender == "assistant"
  {
    if sender == "assistant" then Assistant else User
  }

  /** The assistant text the completion step shows for an outcome. */
  function Reply(outcome: Outcome): (text: string)
    ensures outcome.Loaded? && outcome.status == 200 ==> text == outcome.message
    ensures outcome.Loaded? && outcome.status != 200 ==> text == ServerErrorText
    ensures outcome.NetworkError? ==> text == NetworkErrorText
  {
    match outcome
    case Loaded(status, message) => if status == 200 then message else ServerErrorText
    case NetworkError => NetworkErrorText
  }

  /** A text the send step can put in a user entry: not empty, and no whitespace at either end. */
  predicate IsSendable(text: string) {
    text != [] && !IsWhitespace(text[0]) && !IsWhitespace(text[|text| - 1])
  }

  /** The sendable texts are exactly the non-empty texts that trimming leaves as they are. */
  lemma SendableIsTrimmed(text: string)
    ensures IsSendable(text) <==> text != [] && Trim(text) == text
  {
    if IsSendable(text) {
      assert TrimStart(text) == text;
    }
  }

  /** Every user entry holds trimmed, non-empty text. */
  ghost predicate UserEntriesSendable(transcript: seq<Entry>) {
    forall i :: 0 <= i < |transcript| && transcript[i].role == User ==> IsSendable(transcript[i].text)
  }

  /** Appending an assistant entry or a sendable user entry keeps every user entry sendable. */
  lemma AppendKeepsValid(transcript: seq<Entry>, entry: Entry)
    requires UserEntriesSendable(transcript)
    requires entry.role == User ==> IsSendable(entry.text)
    ensures UserEntriesSendable(transcript + [entry])
  {
    var t := transcript + [entry];
    forall i | 0 <= i < |t| && t[i].role == User
      ensures IsSendable(t[i].text)
    {
      if i < |transcript| {
        assert t[i] == transcript[i];
      }
    }
  }

  class ChatController {
    var transcript: seq<Entry>
    var loading: bool
    var input: string
    var selected: string

    ghost predicate Valid()
      reads this
    {
      UserEntriesSendable(transcript)
    }

    /** The page before the load event: an empty container, no indicator, an empty text box. */
    constructor (selected: string)
      ensures Valid()
      ensures transcript == [] && !loading && input == "" && this.selected == selected
    {
      transcript := [];
      loading := false;
      input := "";
      this.selected := selected;
    }

    /** The user types into the text box. */
    method Type(text: string)
      modifies this`input
      ensures input == text
    {
      input := text;
    }

    /** The user picks a function in the selector. */
    method Select(value: string)
      modifies this`selected
      ensures selected == value
    {
      selected := value;
    }

    /** `showLoading`: shows or hides the indicator. */
    method ShowLoading(show: bool)
      modifies this`loading
      ensures loading == show
    {
      loading := show;
    }

    /** `displayMessage`: appends exactly one entry and leaves the earlier ones as they were. */
    method DisplayMessage(sender: string, message: string)
      modifies this`transcript
      ensures transcript == old(transcript) + [Entry(RoleOf(sender), message)]
    {
      transcript := transcript + [Entry(RoleOf(sender), message)];
    }

    /** The load handler: the welcome entry. */
    method OnPageLoad()
      requires Valid()
      modifies this`transcript
      ensures Valid()
      ensures transcript == old(transcript) + [Entry(Assistant, WelcomeText)]
    {
      DisplayMessage("assistant", WelcomeText);
      AppendKeepsValid(old(transcript), Entry(Assistant, WelcomeText));
    }

    /**
     * `sendMessage` up to the request: a blank text box changes nothing and
     * sends nothing; otherwise the trimmed text becomes a user entry, the
     * indicator shows, the request goes to the selected route and the text box
     * is emptied.
     */
    method SendMessage() returns (request: Option<Request>)
      requires Valid()
      modifies this`transcript, this`loading, this`input
      ensures Valid()
      ensures var message := Trim(old(input));
        if message == [] then
          && request == None
          && transcript == old(transcript) && loading == old(loading) && input == old(input)
        else
          && request == Some(Request(Endpoint(selected), message))
          && transcript == old(transcript) + [Entry(User, message)] && loading && input == ""
    {
      var message := Trim(input);
      if message == [] {
        return None;
      }
      AppendKeepsValid(transcript, Entry(User, message));
      DisplayMessage("user", message);
      ShowLoading(true);
      request := Some(Request(Endpoint(selected), message));
      input := "";
    }

    /** The `onload` and `onerror` handlers: the indicator hides and one assistant entry is appended. */
    method Complete(outcome: Outcome)
      requires Valid()
      modifies this`transcript, this`loading
      ensures Valid()
      ensures !loading && transcript == old(transcript) + [Entry(Assistant, Reply(outcome))]
    {
      ShowLoading(false);
      match outcome {
        case Loaded(status, message) =>
          if status == 200 {
            DisplayMessage("assistant", message);
          } else {
            DisplayMessage("assistant", ServerErrorText);
          }
        case NetworkError =>
          DisplayMessage("assistant", NetworkErrorText);
      }
      AppendKeepsValid(old(transcript), Entry(Assistant, Reply(outcome)));
    }

    /**
     * The copy control of assistant entry `i`: what it writes to the clipboard
     * is that entry's own text with the markup deleted.
     */
    method CopyToClipboard(i: nat) returns (plain: string)
      requires i < |transcript| && transcript[i].role == Assistant
      ensures plain == PlainText(transcript[i].text)
      ensures IsSubsequence(plain, transcript[i].text) && '*' !in plain && '`' !in plain
    {
      plain := PlainText(transcript[i].text);
      PlainTextIsSubsequence(transcript[i].text);
      PlainTextHasNoEmphasisOrCode(transcript[i].text);
    }

    /** `clearChat`: the container is emptied and holds only the cleared notice; the indicator is left alone. */
    method ClearChat()
      requires Valid()
      modifies this`transcript
      ensures Valid()
      ensures transcript == [Entry(Assistant, ClearedText)]
    {
      transcript := [];
      DisplayMessage("assistant", ClearedText);
      AppendKeepsValid([], Entry(Assistant, ClearedText));
    }
  }
}
