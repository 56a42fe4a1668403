# Message board: a verified model

A Dafny model of a small message board. It has two browser pages and a Spring back end.

- The login page checks a user name and password against the server. On success it sets a
  session flag in `sessionStorage` and opens the board.
- The board page is closed to visitors without that flag. It shows a character counter for
  the input, sends messages, lists the ten newest messages with their timestamps formatted
  as `dd:MM:yyyy HH:mm:ss` in local time, and logs out.
- The back end has a login endpoint with four fixed users, a create endpoint that refuses
  missing, blank or over-long content, a service that stamps and stores messages, and a
  repository query for the ten newest.

The model follows the program's structure, one module per component:

- `Text`: UTF-16 lengths, decimal rendering, and the two `trim`s (JavaScript's and Java's differ).
- `Wrappers`, `Http`, `Session`: missing values, what crosses the network, and `sessionStorage`.
- `TimestampFormat`: `formatTimestamp` and `pad` in `frontend/script.js`.
- `BoardScript`: the board page, as the class `MessageBoard`. Its fields are the parts of the
  page the script reads and writes. Each event handler is a method.
- `LoginScript`: the login page, as the class `LoginForm`.
- `LoginApi`: `LoginController.login`.
- `Repository`: the message store, as the class `MessageRepository`, and the top-ten query as
  a function of the stored sequence.
- `Service`, `MessageApi`: `MessageService` and `MessageController`.
- `Flows`: a page and the endpoint it calls, composed in one method each.

The pages are given what the outside world did as inputs:

- a `fetch` is an input `Fetch<T>`: either `Answered(status, body)` or `Rejected`;
- the local reading that `new Date(iso)` makes of a timestamp is an input;
- the server's clock is the parameter `now`.

Three behaviours of the code to note:

- The year is not padded. The fixed nineteen-character layout holds only for years 1000 to 9999
  (`TimestampFormat.FixedWidthForFourDigitYears`).
- The session gate opens only for a flag that is present and non-empty, because the script
  tests `!sessionStorage.getItem(...)`.
- A retrieve whose body fails to parse is treated like a failed request: the table is kept.

## Model

| member | source | states |
|---|---|---|
| Wrappers.Get | backend/src/main/java/com/example/messageapp/controller/LoginController.java:27-28 | A lookup finds a value exactly when the key is present, and then it is the stored value; a missing field reads as null. |
| Text.Utf16Length | frontend/script.js:17 | The length JavaScript and Java report lies between the number of characters and twice that, and equals it when every character is in the Basic Multilingual Plane. |
| Text.NatToString | frontend/script.js:27 | Decimal rendering is non-empty and all digits, one digit exactly below 10 and two digits exactly from 10 to 99, and it starts with `0` only for zero: no leading zeros. |
| Text.ParseNatToString | frontend/script.js:27 | Reading a rendered number back gives the number. |
| Text.ParseIntToString | frontend/script.js:31 | The year's rendering, sign included, reads back as the year. |
| Text.TrimIsMiddleSlice | frontend/script.js:42 | Trimming yields a middle slice of the text: everything cut off is strippable, and the slice neither starts nor ends with a strippable character. |
| Text.TrimEmptyIff | backend/src/main/java/com/example/messageapp/controller/MessageController.java:22 | The trimmed text is empty exactly when every character would be stripped. |
| Text.TrimIdempotent | frontend/script.js:42 | Trimming twice gives the same as trimming once. |
| Text.TrimSingle | frontend/script.js:42 | A one-character text trims to nothing when its character is stripped and to itself otherwise. |
| Text.IsJavaTrimmed | backend/src/main/java/com/example/messageapp/controller/MessageController.java:22 | The characters Java's `trim()` removes are exactly those up to U+0020; TrimEmptyIff makes line 22's blank test "every character is at most U+0020". |
| Text.JavaTrim | backend/src/main/java/com/example/messageapp/controller/MessageController.java:22 | Java's `trim()`: by TrimIsMiddleSlice, the middle slice of the content with every character up to U+0020 cut from both ends. |
| Text.IsJsWhitespace | frontend/script.js:42 | The characters JavaScript's `trim()` removes: the ECMAScript WhiteSpace and LineTerminator set, no-break space and U+FEFF included, and no control character other than tab, line feed, vertical tab, form feed and carriage return. |
| Text.JsTrim | frontend/script.js:42 | JavaScript's `trim()`: by TrimIsMiddleSlice, the middle slice of the input with JavaScript whitespace cut from both ends; by TrimIdempotent, trimming twice changes nothing. |
| Session.SessionStorage.GetItem | frontend/script.js:3 | Reading a key gives its value, or nothing when it is unset. |
| Session.SessionStorage.SetItem | frontend/login.js:35 | Setting a key changes that key and no other. |
| Session.SessionStorage.RemoveItem | frontend/script.js:101 | Removing a key drops that key and no other. |
| TimestampFormat.Pad | frontend/script.js:27 | Below 100, two digits that read back as the number. Below 10, a `0` and then the digit. From 10 on, the plain decimal rendering. |
| TimestampFormat.FormatFields | frontend/script.js:37 | The `dd:MM:yyyy HH:mm:ss` text of valid fields; FormatLayout gives its layout and ParseFormatRoundTrip shows it reads back to the fields. |
| TimestampFormat.FormatTimestamp | frontend/script.js:22-38 | The result is empty exactly for an absent or empty input. |
| TimestampFormat.ParseDisplay | frontend/script.js:37 | Whatever reads back from a display text has fields in the ranges a `Date` reports. |
| TimestampFormat.FormatLayout | frontend/script.js:29-37 | Day, one-based month, hours, minutes and seconds are two characters each at fixed places, separated by `:` and a space. The unpadded year fills the middle. |
| TimestampFormat.FixedWidthForFourDigitYears | frontend/script.js:37 | Years 1000 to 9999 give exactly nineteen characters. |
| TimestampFormat.ParseFormatRoundTrip | frontend/script.js:29-37 | The display text reads back to the very fields it was made from, for every year, negative ones included. |
| TimestampFormat.FormatTimestampReadsBack | frontend/script.js:22-38 | A non-empty timestamp read as valid local fields is displayed so that those fields can be read back. |
| TimestampFormat.FormatExample | frontend/script.js:22-38 | 5 March 2024, 08:15:30 local time is shown as `05:03:2024 08:15:30`. |
| TimestampFormat.FormatInvalidDate | frontend/script.js:25-37 | A string that is not a date shows `NaN` in all six fields. |
| BoardScript.RenderRows | frontend/script.js:82-91 | One row per received message, in the order received, each holding the content and its formatted timestamp. |
| BoardScript.RenderRowsAppend | frontend/script.js:82-91 | Rendering is compositional: the rows of two lists joined are the rows of each, joined. |
| BoardScript.GateOpen | frontend/script.js:3 | The board opens only for a flag that is present and non-empty, the negation of `!sessionStorage.getItem('authenticated')`; MessageBoard.Load ties the page to it. |
| BoardScript.CounterText | frontend/script.js:17-18 | The counter text of an input; CounterShowsLength shows it ends in ` / 250` and its number reads back as the input's UTF-16 length. |
| BoardScript.CounterOfEmpty | frontend/script.js:57 | The counter text a successful send writes is the counter of an empty input. |
| BoardScript.CounterShowsLength | frontend/script.js:17-18 | The counter ends in ` / 250` and its number reads back as the input's length, also past 250. |
| BoardScript.FailedRetrieveKeepsTable | frontend/script.js:74-77 | A retrieve that is refused, answered with an error status, or whose body does not parse leaves the table exactly as it was and logs exactly one error line. |
| BoardScript.RetrieveRowCount | frontend/script.js:81-91 | An OK retrieve of N messages leaves exactly N rows, whatever the table held before. |
| BoardScript.MessageBoard.Load | frontend/script.js:1-6 | Without a non-empty flag the page only goes to `login.html`: no handler, request, row, alert or log line. With the flag it attaches the handlers and retrieves once. |
| BoardScript.MessageBoard.OnInput | frontend/script.js:16-19 | The input takes the typed value untruncated, and the counter shows its length; nothing else changes. |
| BoardScript.MessageBoard.RetrieveMessages | frontend/script.js:71-95 | One `GET` is issued. The table becomes the rendered rows only on a parsed OK answer and is otherwise kept. The console gains the debug lines or the one error line. |
| BoardScript.MessageBoard.ClickRetrieve | frontend/script.js:97 | The retrieve button runs a retrieve on an open board and does nothing on a closed one. |
| BoardScript.MessageBoard.ClickSend | frontend/script.js:41-68 | Blank input alerts `Message cannot be empty.` and sends nothing. Otherwise the trimmed text is posted. Only an OK answer clears the input and resets the counter to `0 / 250`. The alert matches the outcome, and the counter stays in step with the input. |
| BoardScript.MessageBoard.PostContent | frontend/script.js:48-67 | After posting, an OK answer clears the input and alerts success. An error status alerts failure. A rejected request logs an error and alerts `An error occurred.` |
| BoardScript.MessageBoard.ClickLogout | frontend/script.js:100-103 | The session flag is dropped and the page goes to `login.html`, with no request and no other change. |
| LoginScript.NextType | frontend/login.js:11 | A toggle sets `text` exactly when the type was `password`, and `password` in every other case. |
| LoginScript.IconFor | frontend/login.js:15 | The eye icon is shown exactly for the `password` type, and the covered-eyes icon otherwise. |
| LoginScript.ToggleTwiceRestores | frontend/login.js:11-12 | Two toggles restore the type exactly when it started as `password` or `text`. |
| LoginScript.ToggleSettles | frontend/login.js:11-12 | From any start, after two toggles the type is `password` or `text`, and from then on two toggles change nothing. |
| LoginScript.LoginForm.Load | frontend/login.js:1-7 | A freshly loaded login page keeps its initial password type, icon and error text, stays at `login.html`, and has made no request. |
| LoginScript.LoginForm.ClickToggle | frontend/login.js:9-16 | The type flips and the icon matches the new type; nothing else changes. |
| LoginScript.LoginForm.Submit | frontend/login.js:19-44 | The error text is cleared first, and the credentials are posted. An OK answer sets the flag to `true` and opens `index.html`. An error status or a rejection leaves the flag and the location untouched and shows the matching error text. |
| LoginApi.LoginAsWritten | backend/src/main/java/com/example/messageapp/controller/LoginController.java:26-35 | The handler as written throws exactly when the request has no username. |
| LoginApi.MissingUsernameThrows | backend/src/main/java/com/example/messageapp/controller/LoginController.java:30 | A request with only a password makes the handler throw `NullPointerException`. |
| LoginApi.Login | backend/src/main/java/com/example/messageapp/controller/LoginController.java:26-35 | The answer is 200 or 401. It is 200 exactly when the user is in the table and the password matches the stored one, and the body is `Login Successful` or `Invalid credentials` to match. |
| LoginApi.LoginAgreesWhenUsernamePresent | backend/src/main/java/com/example/messageapp/controller/LoginController.java:30-34 | Whenever a username is sent, the code as written answers exactly as the corrected handler does. |
| LoginApi.AcceptedPairs | backend/src/main/java/com/example/messageapp/controller/LoginController.java:18-23 | The pairs the page can send that log in are exactly the four users, each with `Pwd&1234`. |
| LoginApi.WrongPasswordRejected | backend/src/main/java/com/example/messageapp/controller/LoginController.java:30-33 | A known user with any other password gets 401 with `Invalid credentials`. |
| LoginApi.MissingPasswordRejected | backend/src/main/java/com/example/messageapp/controller/LoginController.java:28-33 | A known user without a password gets 401, whether the code is as written or corrected. |
| LoginApi.UserTableSize | backend/src/main/java/com/example/messageapp/controller/LoginController.java:18-23 | The table holds exactly the four named users. |
| LoginApi.Authorized | backend/src/main/java/com/example/messageapp/controller/LoginController.java:30 | The login rule: the user is in the table and the password equals the stored one; AcceptedPairs shows it holds exactly for the four users with `Pwd&1234`. |
| Repository.Newest | backend/src/main/java/com/example/messageapp/repository/MessageRepository.java:8 | The query returns `min(k, store size)` messages. |
| Repository.SortPermutes | backend/src/main/java/com/example/messageapp/repository/MessageRepository.java:8 | Ordering by timestamp neither adds nor drops a message. |
| Repository.SortIsOrdered | backend/src/main/java/com/example/messageapp/repository/MessageRepository.java:8 | The ordered store has non-increasing timestamps. |
| Repository.NewestIsOrdered | backend/src/main/java/com/example/messageapp/repository/MessageRepository.java:8 | The result is newest first. |
| Repository.NewestFromStore | backend/src/main/java/com/example/messageapp/repository/MessageRepository.java:8 | The result is a sub-multiset of the store: each message comes from the store, and no message appears more often than it is stored. |
| Repository.NewestTakesAllWhenFew | backend/src/main/java/com/example/messageapp/repository/MessageRepository.java:8 | When the store holds at most `k` messages, the query returns all of them. |
| Repository.NewestDominatesRest | backend/src/main/java/com/example/messageapp/repository/MessageRepository.java:8 | No stored message left out of the result is newer than any message in it. |
| Repository.Top10 | backend/src/main/java/com/example/messageapp/repository/MessageRepository.java:8 | `findTop10ByOrderByTimestampDesc` on the stored sequence; Top10Properties gives its count, order, origin and that nothing newer is left out. |
| Repository.Top10Properties | backend/src/main/java/com/example/messageapp/repository/MessageRepository.java:8 | The top-ten query returns `min(10, store size)` messages, newest first, all from the store, with none newer left out. |
| Repository.MessageRepository.constructor | backend/src/main/java/com/example/messageapp/repository/MessageRepository.java:7 | A new store is empty. |
| Repository.MessageRepository.Save | backend/src/main/java/com/example/messageapp/service/MessageService.java:25 | Saving appends one message with the given content and time and an id no stored message has, and returns it; earlier records are unchanged. |
| Repository.MessageRepository.FindTop10ByOrderByTimestampDesc | backend/src/main/java/com/example/messageapp/repository/MessageRepository.java:8 | The query reads the store without changing it and returns the top ten: `min(10, size)` messages, newest first. |
| Service.MessageService.SaveMessage | backend/src/main/java/com/example/messageapp/service/MessageService.java:21-26 | The store grows by exactly the returned message, whose content is the argument and whose timestamp is the clock value; earlier records are unchanged. |
| Service.MessageService.GetLatest10Messages | backend/src/main/java/com/example/messageapp/service/MessageService.java:28-30 | The result is exactly the repository's top-ten query, and the store is not changed. |
| MessageApi.AcceptsContentIff | backend/src/main/java/com/example/messageapp/controller/MessageController.java:22 | Content is accepted exactly when it is present, has a character above U+0020, and is at most 250 long before trimming. |
| MessageApi.AcceptsContent | backend/src/main/java/com/example/messageapp/controller/MessageController.java:22 | The negation of line 22's refusal test; AcceptsContentIff states it without trimming: present, a character above U+0020, at most 250 code units untrimmed. |
| MessageApi.RejectsMissing | backend/src/main/java/com/example/messageapp/controller/MessageController.java:21-23 | A payload without `content` is refused. |
| MessageApi.RejectsBlank | backend/src/main/java/com/example/messageapp/controller/MessageController.java:22-23 | Content of spaces and control characters only, the empty text included, is refused. |
| MessageApi.RejectsLong | backend/src/main/java/com/example/messageapp/controller/MessageController.java:22-23 | Content longer than 250 is refused. |
| MessageApi.LengthCountedBeforeTrim | backend/src/main/java/com/example/messageapp/controller/MessageController.java:22 | 250 letters followed by one space are refused, although trimming would make them fit. |
| MessageApi.MessageController.CreateMessage | backend/src/main/java/com/example/messageapp/controller/MessageController.java:20-27 | Refused content gets 400 with no body and leaves the store unchanged. Accepted content is stored untrimmed with the clock value, and the answer is 200 with the saved message. |
| MessageApi.MessageController.GetMessages | backend/src/main/java/com/example/messageapp/controller/MessageController.java:29-32 | The answer is always 200, carrying the service's top-ten list. |
| Flows.SignInAndOpenBoard | frontend/login.js:34-36 | After a login, the board opens exactly for a valid user and password; otherwise the page is sent to `login.html`. |
| Flows.LogoutThenReload | frontend/script.js:100-103 | An open board, once logged out, redirects on reload and issues no request. |
| Flows.SendFromBoard | frontend/script.js:41-68 | Blank input never reaches the server. Text the server accepts is stored trimmed, and the input is cleared. Text the server refuses stores nothing and stays in the input. |
| Flows.ControlCharacterPassesPageOnly | backend/src/main/java/com/example/messageapp/controller/MessageController.java:22 | A lone U+0001 passes the page's blank check but is refused by the server. |
| Flows.NoBreakSpaceBlankOnPageOnly | frontend/script.js:42-46 | A lone no-break space is blank for the page, which never sends it, but the server would accept it. |

## Left out

- `fetch`, HTTP transport and JSON. A request is recorded as a `Request` value, and its outcome is an input: an answer with a status, or a rejection.
- For a retrieve, the outcome also says whether `response.json()` parsed the body.
- A body that parses but is not an array: the script clears the table and then throws. The model has no such input.
- A record with a missing `content` field: the script shows `undefined`. The model has no such input.
- The conversion from an ISO string to local date fields by `new Date` (`frontend/script.js:25`). This is the browser's time-zone and calendar library. The model receives the outcome, local fields or an invalid date, with the string.
- `console` output in detail: log lines are recorded as `LogEntry` values without the error objects. The login page's console errors are only counted.
- `alert`, `window.location` and the DOM are fields of the page classes. `event.preventDefault()` is not modelled.
- Row markup: the HTML string and its injection into the table (`frontend/script.js:86-90`). A row is a (content, formatted timestamp) pair.
- Overlapping asynchronous retrieves and sends. Each handler is modelled running to completion.
- `WebConfig.java` (CORS only), Spring wiring, and MongoDB persistence.
- `Instant.now()`: the clock is the parameter `now`.
- `Repository.MessageRepository.Save`: ids come from a counter in place of MongoDB's generated ObjectIds. The contract promises only that each new id differs from every stored one.
- The unused `formatter` field of `MessageService` (`MessageService.java:18`).
- `MessageService.saveMessage` with null content: no caller passes it, so it is not modelled.
- `Repository.Newest`: the model sorts `Insert`-style, newest first, so equal timestamps keep store order. MongoDB leaves the order among ties unspecified, and no contract depends on it.
- A JSON `null` value for a field reads as a missing field in `LoginApi.Login` and `MessageApi.MessageController.CreateMessage`. Non-string JSON values are not modelled.
- `BoardScript.MessageBoard.Load` does not check the page's initial counter text against its input. The counter is only guaranteed to be in step after an input event.

## Findings

| source | as written | input that shows it | evidently intended | confidence | as-written member | corrected member |
|---|---|---|---|---|---|---|
| backend/src/main/java/com/example/messageapp/controller/LoginController.java:30 | `USERS.containsKey(username)` with `username` null. The table made by `Map.of` throws `NullPointerException` for a null key, so Spring answers 500. | a login body without `username`, e.g. `{"password": "x"}` | 401 with `Invalid credentials`, as for any other bad login | not executed | LoginApi.LoginAsWritten (with LoginApi.MissingUsernameThrows) | LoginApi.Login |
