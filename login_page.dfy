/**
 * The login page (frontend/login.js): a button that shows or hides the password, and the
 * form's submit handler, which posts the credentials and turns the answer into the session
 * flag, an error text and navigation.
 */
module LoginScript {
  import opened Wrappers
  import opened Http
  import opened Session

  /** The icon shown while the password is hidden (U+1F441 U+FE0F, an eye). */
  const EyeIcon := "\U{1F441}\U{FE0F}"
  /** The icon shown while the password is visible (U+1F648, a monkey covering its eyes). */
  const HiddenIcon := "\U{1F648}"

  const InvalidLoginText := "Invalid username or password."
  const LoginErrorText := "An error occurred. Please try again."

  /** The value of the session flag after a successful login. */
  const FlagValue := "true"

  /** The `type` attribute a toggle sets: `text` if it was `password`, otherwise `password` (a missing attribute included). */
  function NextType(current: Option<string>): (t: string)
    ensures t == "text" <==> current == Some("password")
    ensures t == "text" || t == "password"
  {
    if current == Some("password") then "text" else "password"
  }

  /** The icon a toggle writes for the type it has just set. */
  function IconFor(t: string): (icon: string)
    ensures icon == EyeIcon <==> t == "password"
    ensures icon == HiddenIcon <==> t != "password"
  {
    if t == "password" then EyeIcon else HiddenIcon
  }

  /** Two toggles give back the starting `type` exactly when it was `password` or `text`. */
  lemma ToggleTwiceRestores(current: Option<string>)
    ensures Some(NextType(Some(NextType(current)))) == current
            <==> current == Some("password") || current == Some("text")
  {
  }

  /** From any starting attribute, two toggles end on one of the two values a toggle can write, and four equal two. */
  lemma ToggleSettles(current: Option<string>)
    ensures var twice := NextType(Some(NextType(current)));
      twice in {"password", "text"} && NextType(Some(NextType(Some(twice)))) == twice
  {
  }

  /** The answer the submit handler awaits: a response with a status, or a rejected `fetch`. */
  type LoginFetch = Fetch<()>

  /** The error text a submit leaves: cleared first, so empty after an OK answer. */
  function ErrorTextAfter(outcome: LoginFetch): string
  {
    match outcome
    case Rejected => LoginErrorText
    case Answered(status, _) => if IsOk(status) then "" else InvalidLoginText
  }

  class LoginForm {
    const storage: SessionStorage
    var passwordType: Option<string>
    var toggleIcon: string
    var errorText: string
    var location: string
    var requests: seq<Request>
    var consoleErrors: nat

    /** The `DOMContentLoaded` handler: every listener is attached unconditionally. */
    constructor Load(storage: SessionStorage, passwordType: Option<string>, toggleIcon: string, errorText: string)
      ensures this.storage == storage && this.passwordType == passwordType && this.toggleIcon == toggleIcon
      ensures this.errorText == errorText && location == LoginPage && requests == [] && consoleErrors == 0
    {
      this.storage := storage;
      this.passwordType := passwordType;
      this.toggleIcon := toggleIcon;
      this.errorText := errorText;
      location := LoginPage;
      requests := [];
      consoleErrors := 0;
    }

    /** A click on the eye icon: flip the password field's `type` and show the matching icon. */
    method ClickToggle()
      modifies this
      ensures passwordType == Some(NextType(old(passwordType)))
      ensures toggleIcon == IconFor(NextType(old(passwordType)))
      ensures toggleIcon == EyeIcon <==> passwordType == Some("password")
      ensures errorText == old(errorText) && location == old(location)
      ensures requests == old(requests) && consoleErrors == old(consoleErrors)
    {
      var t := NextType(passwordType);
      passwordType := Some(t);
      toggleIcon := IconFor(t);
    }

    /**
     * Submitting the form: clear the error text, post the credentials, then on an OK answer
     * set the session flag and open the board; otherwise show the matching error text.
     */
    method Submit(username: string, password: string, outcome: LoginFetch)
      modifies this, storage
      ensures requests == old(requests) + [PostLogin(username, password)]
      ensures errorText == ErrorTextAfter(outcome)
      ensures outcome.Answered? && IsOk(outcome.status) ==>
        storage.items == old(storage.items)[AuthKey := FlagValue] && location == BoardPage
      ensures !(outcome.Answered? && IsOk(outcome.status)) ==>
        storage.items == old(storage.items) && location == old(location)
      ensures consoleErrors == old(consoleErrors) + (if outcome.Rejected? then 1 else 0)
      ensures passwordType == old(passwordType) && toggleIcon == old(toggleIcon)
    {
      errorText := "";
      requests := requests + [PostLogin(username, password)];
      match outcome {
        case Rejected =>
          consoleErrors := consoleErrors + 1;
          errorText := LoginErrorText;
        case Answered(status, _) =>
          if IsOk(status) {
            storage.SetItem(AuthKey, FlagValue);
            location := BoardPage;
          } else {
            errorText := InvalidLoginText;
          }
      }
    }
  }
}
