/**
 * Client methods that compose a page with the endpoint it calls: each builds a fresh tab
 * (session storage and pages) and a fresh store, feeds the page the answer the back end
 * gives, and states what the user ends up seeing.
 */
module Flows {
  import opened Wrappers
  import opened Text
  import opened Http
  import opened Session
  import opened LoginApi
  import opened LoginScript
  import opened BoardScript
  import opened Repository
  import opened Service
  import opened MessageApi

  /** Logging in and then opening the board: the board opens exactly for a valid user and password. */
  method SignInAndOpenBoard(username: string, password: string, firstRetrieve: ListFetch)
    returns (boardOpen: bool, location: string)
    ensures boardOpen <==> Authorized(username, Some(password))
    ensures location == if boardOpen then BoardPage else LoginPage
  {
    var storage := new SessionStorage();
    var form := new LoginForm.Load(storage, Some("password"), EyeIcon, "");
    var answer := Login(LoginBody(username, password));
    form.Submit(username, password, Answered(answer.status, ()));
    var board := new MessageBoard.Load(storage, "", "0 / 250", firstRetrieve);
    boardOpen, location := board.handlersAttached, board.location;
  }

  /** After logout, loading the board again redirects to the login page and issues no request. */
  method LogoutThenReload(firstRetrieve: ListFetch) returns (before: bool, after: bool, requestsAfter: seq<Request>)
    ensures before && !after && requestsAfter == []
  {
    var storage := new SessionStorage();
    storage.SetItem(AuthKey, FlagValue);
    var board := new MessageBoard.Load(storage, "", "0 / 250", firstRetrieve);
    before := board.handlersAttached;
    board.ClickLogout();
    var reloaded := new MessageBoard.Load(storage, "", "0 / 250", firstRetrieve);
    after, requestsAfter := reloaded.handlersAttached, reloaded.requests;
  }

  /**
   * Typing `input` and pressing send, with the back end answering. Blank input never reaches
   * the server; trimmed input is stored only if the server accepts it, and only then is the
   * input cleared. Text that the browser's `trim` keeps but Java's would remove (control
   * characters), or that is over 250 long, is refused by the server.
   */
  method SendFromBoard(input: string, now: int)
    returns (stored: seq<Message>, finalInput: string, counter: string, lastAlert: string)
    ensures JsTrim(input) == [] ==> stored == [] && finalInput == input && lastAlert == EmptyMessageAlert
    ensures JsTrim(input) != [] && AcceptsContent(Some(JsTrim(input))) ==>
      && |stored| == 1 && stored[0].content == JsTrim(input) && stored[0].timestamp == now
      && finalInput == [] && counter == "0 / 250" && lastAlert == SentAlert
    ensures JsTrim(input) != [] && !AcceptsContent(Some(JsTrim(input))) ==>
      stored == [] && finalInput == input && counter == CounterText(input) && lastAlert == SendFailedAlert
  {
    var storage := new SessionStorage();
    storage.SetItem(AuthKey, FlagValue);
    var repository := new MessageRepository();
    var service := new MessageService(repository);
    var controller := new MessageController(service);
    var board := new MessageBoard.Load(storage, "", "0 / 250", Rejected);
    board.OnInput(input);
    var outcome: Fetch<()> := Rejected;
    if JsTrim(input) != [] {
      var response := controller.CreateMessage(map["content" := JsTrim(input)], now);
      outcome := Answered(response.status, ());
    }
    board.ClickSend(outcome);
    stored, finalInput, counter := repository.records, board.inputValue, board.counterText;
    lastAlert := board.alerts[|board.alerts| - 1];
  }

  /** A control character passes the browser's blank check but not the server's. */
  lemma ControlCharacterPassesPageOnly()
    ensures JsTrim("\U{0001}") == "\U{0001}" && !AcceptsContent(Some("\U{0001}"))
  {
    TrimSingle('\U{0001}', IsJsWhitespace);
    TrimSingle('\U{0001}', IsJavaTrimmed);
  }

  /** A no-break space is blank for the browser but content for the server. */
  lemma NoBreakSpaceBlankOnPageOnly()
    ensures JsTrim("\U{00A0}") == [] && AcceptsContent(Some("\U{00A0}"))
  {
    TrimSingle('\U{00A0}', IsJsWhitespace);
    TrimSingle('\U{00A0}', IsJavaTrimmed);
  }
}
