/**
 * The AJAX handler that turns a topic into a published post: nonce check,
 * key and prompt check, one chat-completion request, reply status check,
 * title/body extraction and post insertion.  Every JSON error reply ends
 * the request, so the handler is a chain of early exits; it is modelled as
 * one function from its inputs to everything it does.
 */
module Handler {
  import opened Wrappers
  import Extractor

  // ---------------------------------------------------------------------------
  // Inputs

  /** The `nonce` form field: missing, or present and accepted or not. */
  datatype NonceField = Absent | Present(verifies: bool)

  /** What the HTTP call gave back: a transport error, or a status code and
      the text of the first choice's message. */
  datatype Transport =
    | TransportError(detail: string)
    | Response(status: int, content: string)

  // ---------------------------------------------------------------------------
  // Outputs

  /** One entry of the chat `messages` list. */
  datatype Message = Message(role: string, content: string)

  /** The outbound chat-completion request: its URL, JSON body fields,
      headers and timeout in seconds. */
  datatype Request = Request(
    url: string,
    model: string,
    messages: seq<Message>,
    maxTokens: int,
    authorization: string,
    contentType: string,
    timeout: int)

  /** The post handed to the CMS. */
  datatype Post = Post(title: string, content: string, status: string, author: nat)

  /** The JSON envelope sent back to the browser. */
  datatype Reply = Reply(success: bool, message: string)

  /** Everything one call does: the reply, the request it sent (if any) and
      the post it inserted (if any). */
  datatype Outcome = Outcome(reply: Reply, sent: Option<Request>, inserted: Option<Post>)

  // ---------------------------------------------------------------------------
  // Constants

  const Endpoint: string := "https://api.openai.com/v1/chat/completions"
  const ModelName: string := "gpt-3.5-turbo"
  const SystemPrompt: string := "You are a helpful assistant."
  const TopicPrefix: string := "Write an article for this topic: "
  const MaxTokens: int := 500
  const TimeoutSeconds: int := 30
  /** The bearer scheme of section 2.1 of RFC 6750, with its separating space. */
  const BearerPrefix: string := "Bearer "
  const JsonType: string := "application/json"

  const NonceFailed: string := "Nonce verification failed."
  const InputMissing: string := "API key or prompt is missing."
  const ConnectFailed: string := "Failed to connect to OpenAI."
  const NoResponse: string := "Failed to retrieve a response from OpenAI."
  const Created: string := "Post created successfully!"

  // ---------------------------------------------------------------------------
  // Checks

  /** PHP truthiness of a string, which is also `!empty()` of a string:
      only "" and "0" are falsy. */
  predicate Truthy(s: string) {
    s != "" && s != "0"
  }

  /** The stored API key: `None` is the `false` returned for a missing option. */
  predicate KeyTruthy(key: Option<string>) {
    key.Some? && Truthy(key.value)
  }

  predicate NonceOk(nonce: NonceField) {
    nonce.Present? && nonce.verifies
  }

  /** Both checks before the request pass. */
  predicate Ready(nonce: NonceField, key: Option<string>, prompt: string) {
    NonceOk(nonce) && KeyTruthy(key) && Truthy(prompt)
  }

  // ---------------------------------------------------------------------------
  // The request

  /** `s` begins with `p`; the rest is `s[|p|..]`. */
  predicate HasPrefix(s: string, p: string) {
    |p| <= |s| && s[..|p|] == p
  }

  /** The request built from the key and the sanitized prompt. */
  function BuildRequest(key: string, prompt: string): (r: Request)
    ensures r.url == Endpoint && r.model == ModelName
    ensures r.maxTokens == MaxTokens && r.timeout == TimeoutSeconds
    ensures r.contentType == JsonType
    ensures |r.messages| == 2
    ensures r.messages[0] == Message("system", SystemPrompt)
    ensures r.messages[1].role == "user"
    ensures HasPrefix(r.messages[1].content, TopicPrefix)
    ensures r.messages[1].content[|TopicPrefix|..] == prompt
    ensures HasPrefix(r.authorization, BearerPrefix)
    ensures r.authorization[|BearerPrefix|..] == key
  {
    Request(
      Endpoint,
      ModelName,
      [Message("system", SystemPrompt), Message("user", TopicPrefix + prompt)],
      MaxTokens,
      BearerPrefix + key,
      JsonType,
      TimeoutSeconds)
  }

  /**
   * Reads the key and the prompt back out of a request, provided every
   * fixed field has the value the handler gives it.  It is the inverse of
   * `BuildRequest`.
   */
  function RequestInputs(r: Request): (kp: Option<(string, string)>)
    ensures kp.Some? ==> HasPrefix(r.authorization, BearerPrefix)
    ensures kp.Some? ==> |r.messages| == 2 && HasPrefix(r.messages[1].content, TopicPrefix)
  {
    if r.url == Endpoint && r.model == ModelName && r.maxTokens == MaxTokens
       && r.contentType == JsonType && r.timeout == TimeoutSeconds
       && |r.messages| == 2 && r.messages[0] == Message("system", SystemPrompt)
       && r.messages[1].role == "user"
       && HasPrefix(r.messages[1].content, TopicPrefix)
       && HasPrefix(r.authorization, BearerPrefix)
    then Some((r.authorization[|BearerPrefix|..], r.messages[1].content[|TopicPrefix|..]))
    else None
  }

  /** Building a request and reading it back gives the key and the prompt. */
  lemma RequestRoundTrip(key: string, prompt: string)
    ensures RequestInputs(BuildRequest(key, prompt)) == Some((key, prompt))
  {
    var r := BuildRequest(key, prompt);
    assert HasPrefix(r.messages[1].content, TopicPrefix);
    assert HasPrefix(r.authorization, BearerPrefix);
  }

  /** A request whose fixed fields are the handler's is the one it builds
      from the key and prompt read back from it. */
  lemma RequestDeterminedByInputs(r: Request, key: string, prompt: string)
    requires RequestInputs(r) == Some((key, prompt))
    ensures r == BuildRequest(key, prompt)
  {
    var b := BuildRequest(key, prompt);
    assert r.authorization == BearerPrefix + key by {
      assert r.authorization == r.authorization[..|BearerPrefix|] + r.authorization[|BearerPrefix|..];
    }
    var c := r.messages[1].content;
    assert c == TopicPrefix + prompt by {
      assert c == c[..|TopicPrefix|] + c[|TopicPrefix|..];
    }
    assert r.messages[1] == b.messages[1];
    assert r.messages == b.messages;
  }

  // ---------------------------------------------------------------------------
  // The handler

  /**
   * One call of the handler.  `prompt` is the already sanitized `prompt`
   * field (empty when the field is missing), `key` the stored API key,
   * `user` the current user's id and `transport` what the request gave back.
   * Each failing check replies with its own error and goes no further.
   */
  function GeneratePost(nonce: NonceField, key: Option<string>, prompt: string,
                        user: nat, transport: Transport): (o: Outcome)
    // the request goes out exactly when both checks pass, and it is the one built from key and prompt
    ensures o.sent.Some? <==> Ready(nonce, key, prompt)
    ensures o.sent.Some? ==> o.sent.value == BuildRequest(key.value, prompt)
    // a post is inserted exactly when the request went out and came back with status 200
    ensures o.inserted.Some? <==> o.sent.Some? && transport.Response? && transport.status == 200
    ensures o.inserted.Some? ==>
              o.inserted.value == Post(Extractor.Title(transport.content),
                                       Extractor.Body(transport.content), "publish", user)
    // success is reported exactly when a post was inserted
    ensures o.reply.success <==> o.inserted.Some?
    // which message each stage replies with
    ensures !NonceOk(nonce) ==> o.reply.message == NonceFailed
    ensures NonceOk(nonce) && !Ready(nonce, key, prompt) ==> o.reply.message == InputMissing
    ensures o.sent.Some? && transport.TransportError? ==> o.reply.message == ConnectFailed
    ensures o.sent.Some? && transport.Response? && transport.status != 200 ==>
              o.reply.message == NoResponse
    ensures o.inserted.Some? ==> o.reply.message == Created
  {
    if !NonceOk(nonce) then
      Outcome(Reply(false, NonceFailed), None, None)
    else if !KeyTruthy(key) || !Truthy(prompt) then
      Outcome(Reply(false, InputMissing), None, None)
    else
      var request := BuildRequest(key.value, prompt);
      match transport
      case TransportError(_) =>
        Outcome(Reply(false, ConnectFailed), Some(request), None)
      case Response(status, text) =>
        if status != 200 then
          Outcome(Reply(false, NoResponse), Some(request), None)
        else
          var post := Post(Extractor.Title(text), Extractor.Body(text), "publish", user);
          Outcome(Reply(true, Created), Some(request), Some(post))
  }

  // ---------------------------------------------------------------------------
  // Properties

  /** The five replies are pairwise different, so the message alone tells
      how far a call got: whether it sent a request and whether it inserted
      a post. */
  lemma ReplyTellsHowFar(n1: NonceField, k1: Option<string>, p1: string, u1: nat, t1: Transport,
                         n2: NonceField, k2: Option<string>, p2: string, u2: nat, t2: Transport)
    requires GeneratePost(n1, k1, p1, u1, t1).reply.message == GeneratePost(n2, k2, p2, u2, t2).reply.message
    ensures GeneratePost(n1, k1, p1, u1, t1).sent.Some? == GeneratePost(n2, k2, p2, u2, t2).sent.Some?
    ensures GeneratePost(n1, k1, p1, u1, t1).inserted.Some? == GeneratePost(n2, k2, p2, u2, t2).inserted.Some?
  {
    MessagesDistinct();
  }

  lemma MessagesDistinct()
    ensures NonceFailed != InputMissing && NonceFailed != ConnectFailed
    ensures NonceFailed != NoResponse && NonceFailed != Created
    ensures InputMissing != ConnectFailed && InputMissing != NoResponse && InputMissing != Created
    ensures ConnectFailed != NoResponse && ConnectFailed != Created
    ensures NoResponse != Created
  {
    assert NonceFailed[0] == 'N' && InputMissing[0] == 'A' && Created[0] == 'P';
    assert ConnectFailed[0] == 'F' && NoResponse[0] == 'F';
    assert ConnectFailed[10] == 'c' && NoResponse[10] == 'r';
  }

  /** A rejected nonce is answered before anything else is looked at: the
      outcome does not depend on the key, the prompt, the user or the reply. */
  lemma NonceCheckedFirst(nonce: NonceField, k1: Option<string>, p1: string, u1: nat, t1: Transport,
                          k2: Option<string>, p2: string, u2: nat, t2: Transport)
    requires !NonceOk(nonce)
    ensures GeneratePost(nonce, k1, p1, u1, t1) == GeneratePost(nonce, k2, p2, u2, t2)
    ensures GeneratePost(nonce, k1, p1, u1, t1) == Outcome(Reply(false, NonceFailed), None, None)
  {
  }

  /** "0" is as missing as an empty prompt or key. */
  lemma ZeroIsMissing(key: Option<string>, prompt: string, user: nat, transport: Transport)
    requires key == Some("0") || prompt == "0"
    ensures GeneratePost(Present(true), key, prompt, user, transport)
            == Outcome(Reply(false, InputMissing), None, None)
  {
  }

  /** A reply that opens with a "Title: " line becomes a published post with
      that title and article. */
  lemma FormattedReplyPublished(key: string, prompt: string, user: nat, t: string, b: string)
    requires Truthy(key) && Truthy(prompt)
    requires t != [] && !Extractor.IsRegexSpace(t[0]) && Extractor.OneLine(t)
    requires forall j :: !Extractor.TitleAt(b, j)
    requires b == [] || (!Extractor.IsTrimSpace(b[0]) && !Extractor.IsTrimSpace(b[|b| - 1]))
    ensures GeneratePost(Present(true), Some(key), prompt, user,
                         Response(200, Extractor.Tag + " " + t + "\n" + b))
            == Outcome(Reply(true, Created), Some(BuildRequest(key, prompt)),
                       Some(Post(t, b, "publish", user)))
  {
    Extractor.ExtractRoundTrip(t, b);
  }

  /** A 200 reply with no title line publishes the placeholder title and the
      trimmed reply. */
  lemma UntitledReplyPublished(key: string, prompt: string, user: nat, text: string)
    requires Truthy(key) && Truthy(prompt)
    requires forall j :: !Extractor.TitleAt(text, j)
    ensures GeneratePost(Present(true), Some(key), prompt, user, Response(200, text)).inserted
            == Some(Post(Extractor.NoTitle, Extractor.Trim(text), "publish", user))
  {
    Extractor.NoTitleLine(text);
  }

  /** The worked case: "Title: Hello World\nSome body text." is published as
      the post "Hello World" with the body "Some body text.". */
  lemma ExampleHelloWorld(key: string, prompt: string, user: nat)
    requires Truthy(key) && Truthy(prompt)
    ensures GeneratePost(Present(true), Some(key), prompt, user,
                         Response(200, Extractor.Tag + " " + "Hello World" + "\n" + "Some body text."))
            .inserted == Some(Post("Hello World", "Some body text.", "publish", user))
  {
    Extractor.ExampleTitleThenBody();
  }
}
