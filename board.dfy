/**
 * The message-board page (frontend/script.js). Loading the page runs the session gate;
 * if it passes, the page attaches its handlers (input counter, send, retrieve, logout) and
 * retrieves the messages once. Every handler is a method of `MessageBoard`, whose fields
 * are the parts of the page the script reads and writes. A `fetch` a handler awaits is
 * given to it as an input: the response that arrived, or the rejection.
 */
module BoardScript {
  import opened Wrappers
  import opened Text
  import opened Http
  import opened Session
  import opened TimestampFormat

  const EmptyMessageAlert := "Message cannot be empty."
  const SentAlert := "Message sent successfully!"
  const SendFailedAlert := "Failed to send message."
  const SendErrorAlert := "An error occurred."

  /** A message as the board receives it in the JSON list. */
  datatype WireMessage = WireMessage(content: string, timestamp: TimestampInput)

  /** A table row: the content cell and the formatted-timestamp cell. */
  datatype Row = Row(content: string, formatted: string)

  /** The lines the page writes to the browser console. */
  datatype LogEntry =
    | SendError
    | FetchFailed(status: int)
    | RetrieveError
    | Debug(timestamp: TimestampInput, formatted: string)

  /** How a `GET /api/messages` ends: the body is `None` when `response.json()` throws. */
  type ListFetch = Fetch<Option<seq<WireMessage>>>

  /** `!sessionStorage.getItem('authenticated')` is false only for a present, non-empty value. */
  predicate GateOpen(flag: Option<string>)
  {
    flag.Some? && flag.value != []
  }

  /** The counter's text for an input value: its length, over the advisory limit of 250. */
  function CounterText(value: string): string
  {
    NatToString(Utf16Length(value)) + " / 250"
  }

  function RenderRow(m: WireMessage): Row
  {
    Row(m.content, FormatTimestamp(m.timestamp))
  }

  /** One row per received message, in the order received. */
  function RenderRows(ms: seq<WireMessage>): (rows: seq<Row>)
    ensures |rows| == |ms|
    ensures forall i :: 0 <= i < |ms| ==> rows[i] == Row(ms[i].content, FormatTimestamp(ms[i].timestamp))
  {
    if ms == [] then [] else [RenderRow(ms[0])] + RenderRows(ms[1..])
  }

  /** The debug line logged for each rendered message. */
  function DebugLines(ms: seq<WireMessage>): seq<LogEntry>
  {
    seq(|ms|, i requires 0 <= i < |ms| => Debug(ms[i].timestamp, FormatTimestamp(ms[i].timestamp)))
  }

  /** A retrieve replaces the table only when the response is OK and its body parses. */
  predicate RetrieveReplaces(outcome: ListFetch)
  {
    outcome.Answered? && IsOk(outcome.status) && outcome.body.Some?
  }

  /** The table after a retrieve that started from `rows`. */
  function TableAfter(rows: seq<Row>, outcome: ListFetch): seq<Row>
  {
    if RetrieveReplaces(outcome) then RenderRows(outcome.body.value) else rows
  }

  /** What a retrieve writes to the console. */
  function RetrieveLog(outcome: ListFetch): seq<LogEntry>
  {
    match outcome
    case Rejected => [RetrieveError]
    case Answered(status, body) =>
      if !IsOk(status) then [FetchFailed(status)]
      else if body.None? then [RetrieveError]
      else DebugLines(body.value)
  }

  /** A send succeeds when the POST is answered with an OK status. */
  predicate SendSucceeded(outcome: Fetch<()>)
  {
    outcome.Answered? && IsOk(outcome.status)
  }

  /** The alert a send that got as far as the request ends with. */
  function SendAlert(outcome: Fetch<()>): string
  {
    match outcome
    case Rejected => SendErrorAlert
    case Answered(status, _) => if IsOk(status) then SentAlert else SendFailedAlert
  }

  class MessageBoard {
    const storage: SessionStorage
    var location: string
    var handlersAttached: bool
    var inputValue: string
    var counterText: string
    var rows: seq<Row>
    var alerts: seq<string>
    var requests: seq<Request>
    var console: seq<LogEntry>

    /**
     * A page whose gate closed has only redirected: no row, alert, request or log line.
     * A page whose gate opened has issued the initial retrieve before anything else.
     */
    ghost predicate Valid()
      reads this
    {
      && (!handlersAttached ==> location == LoginPage && rows == [] && alerts == [] && requests == [] && console == [])
      && (handlersAttached ==> |requests| > 0 && requests[0] == GetMessages)
    }

    /** The state just before the initial retrieve: handlers attached, nothing requested yet. */
    ghost predicate Loading()
      reads this
    {
      handlersAttached && requests == [] && rows == [] && alerts == [] && console == []
    }

    /** The counter shows the length of the current input. */
    ghost predicate CounterInSync()
      reads this
    {
      counterText == CounterText(inputValue)
    }

    /**
     * The `DOMContentLoaded` handler. `input` and `counter` are the page's initial input
     * value and counter text; `firstRetrieve` is how the initial retrieve ends.
     */
    constructor Load(storage: SessionStorage, input: string, counter: string, firstRetrieve: ListFetch)
      ensures Valid() && this.storage == storage
      ensures handlersAttached == GateOpen(Get(storage.items, AuthKey))
      ensures !handlersAttached ==> location == LoginPage && inputValue == input && counterText == counter
      ensures handlersAttached ==>
        && location == BoardPage && inputValue == input && counterText == counter
        && requests == [GetMessages] && alerts == []
        && rows == TableAfter([], firstRetrieve) && console == RetrieveLog(firstRetrieve)
    {
      this.storage := storage;
      location := BoardPage;
      handlersAttached := false;
      inputValue := input;
      counterText := counter;
      rows := [];
      alerts := [];
      requests := [];
      console := [];
      new;
      var flag := storage.GetItem(AuthKey);
      if !GateOpen(flag) {
        location := LoginPage;
      } else {
        handlersAttached := true;
        RetrieveMessages(firstRetrieve);
      }
    }

    /** The `input` event: the browser has already stored `value`, never truncated; the listener rewrites the counter. */
    method OnInput(value: string)
      requires Valid()
      modifies this
      ensures Valid()
      ensures inputValue == value
      ensures counterText == if old(handlersAttached) then CounterText(value) else old(counterText)
      ensures old(handlersAttached) ==> CounterInSync()
      ensures handlersAttached == old(handlersAttached) && location == old(location) && rows == old(rows)
      ensures alerts == old(alerts) && requests == old(requests) && console == old(console)
    {
      inputValue := value;
      if handlersAttached {
        counterText := CounterText(value);
      }
    }

    /** `retrieveMessages`: on a parsed OK response, clear the table and append one row per message. */
    method RetrieveMessages(outcome: ListFetch)
      requires (Valid() || Loading()) && handlersAttached
      modifies this
      ensures Valid()
      ensures requests == old(requests) + [GetMessages]
      ensures rows == TableAfter(old(rows), outcome)
      ensures console == old(console) + RetrieveLog(outcome)
      ensures handlersAttached == old(handlersAttached) && location == old(location) && alerts == old(alerts)
      ensures inputValue == old(inputValue) && counterText == old(counterText)
    {
      requests := requests + [GetMessages];
      match outcome {
        case Rejected =>
          console := console + [RetrieveError];
        case Answered(status, body) =>
          if !IsOk(status) {
            console := console + [FetchFailed(status)];
          } else if body.None? {
            console := console + [RetrieveError];
          } else {
            var messages := body.value;
            var shown: seq<Row> := [];
            var logged: seq<LogEntry> := [];
            var i := 0;
            while i < |messages|
              modifies {}
              invariant 0 <= i <= |messages|
              invariant shown == RenderRows(messages[..i])
              invariant logged == DebugLines(messages[..i])
            {
              var formatted := FormatTimestamp(messages[i].timestamp);
              DebugLinesSnoc(messages, i);
              RenderRowsSnoc(messages, i);
              logged := logged + [Debug(messages[i].timestamp, formatted)];
              shown := shown + [Row(messages[i].content, formatted)];
              i := i + 1;
            }
            assert messages[..i] == messages;
            rows := shown;
            console := console + logged;
          }
      }
    }

    /** A click on the retrieve button. */
    method ClickRetrieve(outcome: ListFetch)
      requires Valid()
      modifies this
      ensures Valid()
      ensures !old(handlersAttached) ==> unchanged(this)
      ensures old(handlersAttached) ==>
        && requests == old(requests) + [GetMessages]
        && rows == TableAfter(old(rows), outcome)
        && console == old(console) + RetrieveLog(outcome)
      ensures handlersAttached == old(handlersAttached) && location == old(location) && alerts == old(alerts)
      ensures inputValue == old(inputValue) && counterText == old(counterText)
    {
      if handlersAttached {
        RetrieveMessages(outcome);
      }
    }

    /**
     * A click on the send button. Whitespace-only input raises an alert and sends nothing;
     * otherwise the trimmed text is posted, and only an OK answer clears the input.
     */
    method ClickSend(outcome: Fetch<()>)
      requires Valid()
      modifies this
      ensures Valid()
      ensures !old(handlersAttached) ==> unchanged(this)
      ensures old(handlersAttached) && JsTrim(old(inputValue)) == [] ==>
        && alerts == old(alerts) + [EmptyMessageAlert] && requests == old(requests)
        && inputValue == old(inputValue) && counterText == old(counterText) && console == old(console)
      ensures old(handlersAttached) && JsTrim(old(inputValue)) != [] ==>
        && requests == old(requests) + [PostMessage(JsTrim(old(inputValue)))]
        && alerts == old(alerts) + [SendAlert(outcome)]
        && console == old(console) + (if outcome.Rejected? then [SendError] else [])
        && (SendSucceeded(outcome) ==> inputValue == [] && counterText == "0 / 250")
        && (!SendSucceeded(outcome) ==> inputValue == old(inputValue) && counterText == old(counterText))
      ensures old(CounterInSync()) ==> CounterInSync()
      ensures handlersAttached == old(handlersAttached) && location == old(location) && rows == old(rows)
    {
      if handlersAttached {
        var content := JsTrim(inputValue);
        if content == [] {
          alerts := alerts + [EmptyMessageAlert];
        } else {
          PostContent(content, outcome);
        }
      }
    }

    /** The rest of a send once the text is known not to be blank: post it and report the answer. */
    method PostContent(content: string, outcome: Fetch<()>)
      requires Valid() && handlersAttached
      modifies this
      ensures Valid()
      ensures requests == old(requests) + [PostMessage(content)]
      ensures alerts == old(alerts) + [SendAlert(outcome)]
      ensures console == old(console) + (if outcome.Rejected? then [SendError] else [])
      ensures SendSucceeded(outcome) ==> inputValue == [] && counterText == "0 / 250"
      ensures !SendSucceeded(outcome) ==> inputValue == old(inputValue) && counterText == old(counterText)
      ensures old(CounterInSync()) ==> CounterInSync()
      ensures handlersAttached == old(handlersAttached) && location == old(location) && rows == old(rows)
    {
      requests := requests + [PostMessage(content)];
      if outcome.Rejected? {
        console := console + [SendError];
        alerts := alerts + [SendErrorAlert];
      } else if IsOk(outcome.status) {
        inputValue := "";
        counterText := "0 / 250";
        alerts := alerts + [SentAlert];
        CounterOfEmpty();
      } else {
        alerts := alerts + [SendFailedAlert];
      }
    }

    /** A click on the logout button: drop the session flag and go to the login page, without any request. */
    method ClickLogout()
      requires Valid()
      modifies this, storage
      ensures Valid()
      ensures !old(handlersAttached) ==> unchanged(this) && unchanged(storage)
      ensures old(handlersAttached) ==> storage.items == old(storage.items) - {AuthKey} && location == LoginPage
      ensures handlersAttached == old(handlersAttached) && rows == old(rows) && alerts == old(alerts)
      ensures requests == old(requests) && console == old(console)
      ensures inputValue == old(inputValue) && counterText == old(counterText)
    {
      if handlersAttached {
        storage.RemoveItem(AuthKey);
        location := LoginPage;
      }
    }
  }

  lemma DebugLinesSnoc(ms: seq<WireMessage>, i: nat)
    requires i < |ms|
    ensures DebugLines(ms[..i + 1]) == DebugLines(ms[..i]) + [Debug(ms[i].timestamp, FormatTimestamp(ms[i].timestamp))]
  {
  }

  lemma RenderRowsSnoc(ms: seq<WireMessage>, i: nat)
    requires i < |ms|
    ensures RenderRows(ms[..i + 1]) == RenderRows(ms[..i]) + [RenderRow(ms[i])]
  {
    RenderRowsAppend(ms[..i], [ms[i]]);
    assert ms[..i + 1] == ms[..i] + [ms[i]];
  }

  /** The text a successful send resets the counter to is the counter of an empty input. */
  lemma CounterOfEmpty()
    ensures CounterText("") == "0 / 250"
  {
  }

  /** The counter reads back as the input's length, even past 250: the limit is shown, never enforced. */
  lemma CounterShowsLength(value: string)
    ensures var t := CounterText(value);
      && |t| > 6 && t[|t| - 6..] == " / 250"
      && AllDigits(t[..|t| - 6]) && ParseNat(t[..|t| - 6]) == Utf16Length(value)
  {
    var t := CounterText(value);
    var digits := NatToString(Utf16Length(value));
    assert t[..|t| - 6] == digits;
    ParseNatToString(Utf16Length(value));
  }

  /** Rendering a received list is compositional: the rows of `a + b` are the rows of `a`, then those of `b`. */
  lemma RenderRowsAppend(a: seq<WireMessage>, b: seq<WireMessage>)
    ensures RenderRows(a + b) == RenderRows(a) + RenderRows(b)
  {
  }

  /** A retrieve that does not replace the table leaves it exactly as it was, and says so only on the console. */
  lemma FailedRetrieveKeepsTable(rows: seq<Row>, outcome: ListFetch)
    requires !RetrieveReplaces(outcome)
    ensures TableAfter(rows, outcome) == rows
    ensures |RetrieveLog(outcome)| == 1 && (RetrieveLog(outcome)[0].RetrieveError? || RetrieveLog(outcome)[0].FetchFailed?)
  {
  }

  /** An OK retrieve of N messages leaves exactly N rows, whatever the table held before. */
  lemma RetrieveRowCount(rows: seq<Row>, ms: seq<WireMessage>, status: int)
    requires IsOk(status)
    ensures |TableAfter(rows, Answered(status, Some(ms)))| == |ms|
  {
  }
}
