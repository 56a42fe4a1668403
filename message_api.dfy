/**
 * The message service (MessageService.java): saving stamps a message with the clock and
 * appends it to the store; reading delegates to the top-ten query. The clock
 * (`Instant.now()`) is the `now` parameter.
 */
module Service {
  import opened Repository

  class MessageService {
    const repository: MessageRepository

    constructor (repository: MessageRepository)
      ensures this.repository == repository
    {
      this.repository := repository;
    }

    /** `saveMessage`: a new message with exactly this content and the current time, appended to the store. */
    method SaveMessage(content: string, now: int) returns (saved: Message)
      requires repository.Valid()
      modifies repository
      ensures repository.Valid()
      ensures saved.content == content && saved.timestamp == now
      ensures repository.records == old(repository.records) + [saved]
      ensures forall i :: 0 <= i < |old(repository.records)| ==> old(repository.records)[i].id != saved.id
    {
      saved := repository.Save(content, now);
    }

    /** `getLatest10Messages`: the repository's query result, with the store left as it is. */
    method GetLatest10Messages() returns (r: seq<Message>)
      ensures r == Top10(repository.records)
      ensures |r| == Min(QueryLimit, |repository.records|) && NewestFirst(r)
    {
      r := repository.FindTop10ByOrderByTimestampDesc();
    }
  }
}

/**
 * `POST /api/messages` and `GET /api/messages` (MessageController.java). Creation
 * rejects missing, blank or over-long content with 400 before anything is stored;
 * listing always answers 200 with the ten newest messages.
 */
module MessageApi {
  import opened Wrappers
  import opened Text
  import opened Http
  import opened Repository
  import opened Service

  /** The longest content accepted, in UTF-16 code units. */
  const MaxContentLength := 250

  /**
   * The inverse of line 22's rejection test: content present, not empty after Java's
   * `trim()`, and at most 250 long, the length taken before trimming.
   */
  predicate AcceptsContent(content: Option<string>)
  {
    content.Some? && JavaTrim(content.value) != [] && Utf16Length(content.value) <= MaxContentLength
  }

  /** Acceptance without reference to trimming: present, some character above U+0020, and short enough untrimmed. */
  lemma AcceptsContentIff(content: Option<string>)
    ensures AcceptsContent(content) <==>
      && content.Some?
      && (exists i :: 0 <= i < |content.value| && content.value[i] > ' ')
      && Utf16Length(content.value) <= MaxContentLength
  {
    if content.Some? {
      TrimEmptyIff(content.value, IsJavaTrimmed);
    }
  }

  /** A payload without `content` is rejected. */
  lemma RejectsMissing()
    ensures !AcceptsContent(Get(map[], "content"))
  {
  }

  /** Content made only of spaces and control characters, the empty string included, is rejected. */
  lemma RejectsBlank(content: string)
    requires forall i :: 0 <= i < |content| ==> content[i] <= ' '
    ensures !AcceptsContent(Some(content))
  {
    TrimEmptyIff(content, IsJavaTrimmed);
  }

  /** Content over 250 long is rejected, even when it would fit once trimmed. */
  lemma RejectsLong(content: string)
    requires Utf16Length(content) > MaxContentLength
    ensures !AcceptsContent(Some(content))
  {
  }

  /** Acceptance is decided on the untrimmed text: 250 letters and one trailing space are refused. */
  lemma LengthCountedBeforeTrim()
    ensures var content := seq(250, _ => 'a') + " ";
      JavaTrim(content) != [] && !AcceptsContent(Some(content))
  {
    var content := seq(250, _ => 'a') + " ";
    TrimEmptyIff(content, IsJavaTrimmed);
    assert !IsJavaTrimmed(content[0]);
  }

  class MessageController {
    const service: MessageService

    constructor (service: MessageService)
      ensures this.service == service
    {
      this.service := service;
    }

    /**
     * `createMessage`: for acceptable content, store it as sent, untrimmed, and answer
     * 200 with the saved message; otherwise answer 400 with no body and store nothing.
     */
    method CreateMessage(payload: map<string, string>, now: int) returns (response: HttpResponse<Message>)
      requires service.repository.Valid()
      modifies service.repository
      ensures service.repository.Valid()
      ensures !AcceptsContent(Get(payload, "content")) ==>
        response == HttpResponse(StatusBadRequest, None)
        && service.repository.records == old(service.repository.records)
      ensures AcceptsContent(Get(payload, "content")) ==>
        && response.status == StatusOk && response.body.Some?
        && response.body.value.content == payload["content"] && response.body.value.timestamp == now
        && service.repository.records == old(service.repository.records) + [response.body.value]
    {
      var content := Get(payload, "content");
      if !AcceptsContent(content) {
        return HttpResponse(StatusBadRequest, None);
      }
      var saved := service.SaveMessage(content.value, now);
      response := HttpResponse(StatusOk, Some(saved));
    }

    /** `getMessages`: always 200, carrying the service's latest-ten list. */
    method GetMessages() returns (response: HttpResponse<seq<Message>>)
      ensures response.status == StatusOk
      ensures response.body == Some(Top10(service.repository.records))
    {
      var latest := service.GetLatest10Messages();
      response := HttpResponse(StatusOk, Some(latest));
    }
  }
}
