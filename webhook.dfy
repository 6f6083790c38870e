/** Choosing how the message reaches Discord (main.py:46-52): a new message is posted to
    the webhook URL; when a message id is configured, that message is edited instead. */
module Webhook {
  import opened Wrappers

  datatype HttpMethod = Post | Patch {
    function Name(): string {
      match this
      case Post => "POST"
      case Patch => "PATCH"
    }
  }

  datatype Target = Target(verb: HttpMethod, url: string)

  const MessagesPath := "/messages/"

  /** `WEBHOOK_MESSAGE_ID` counts as set only when it is present and not empty (Python
      truthiness of the string). */
  predicate HasMessageId(messageId: Option<string>): (isSet: bool)
    ensures !isSet <==> messageId == None || messageId == Some("")
  {
    messageId.Some? && messageId.value != ""
  }

  /** Where and how the request goes. */
  function Endpoint(webhookUrl: string, messageId: Option<string>): (t: Target)
    ensures t.verb == Patch <==> HasMessageId(messageId)
    ensures t.verb.Name() == (if HasMessageId(messageId) then "PATCH" else "POST")
    ensures |t.url| >= |webhookUrl| && t.url[..|webhookUrl|] == webhookUrl
  {
    if HasMessageId(messageId) then Target(Patch, webhookUrl + MessagesPath + messageId.value)
    else Target(Post, webhookUrl)
  }

  /** The message an edit request targets, read back from its URL; `None` for a URL that
      is not below `webhookUrl + "/messages/"`. */
  function EditedMessage(webhookUrl: string, url: string): Option<string> {
    var prefix := webhookUrl + MessagesPath;
    if |url| > |prefix| && url[..|prefix|] == prefix then Some(url[|prefix|..]) else None
  }

  /** The URL alone tells which message, if any, the request edits: exactly the configured
      one when an id is set, none when the message is posted to the webhook URL itself. */
  lemma EndpointRoundTrip(webhookUrl: string, messageId: Option<string>)
    ensures EditedMessage(webhookUrl, Endpoint(webhookUrl, messageId).url)
         == if HasMessageId(messageId) then messageId else None
    ensures !HasMessageId(messageId) ==> Endpoint(webhookUrl, messageId).url == webhookUrl
  {
    var url := Endpoint(webhookUrl, messageId).url;
    var prefix := webhookUrl + MessagesPath;
    if HasMessageId(messageId) {
      assert url == prefix + messageId.value;
      assert url[..|prefix|] == prefix;
      assert url[|prefix|..] == messageId.value;
    }
  }

  /** The script's routing: start from POST to the webhook URL and switch to PATCH on the
      message's URL when an id is set. */
  method Route(webhookUrl: string, messageId: Option<string>) returns (webhookMethod: HttpMethod, url: string)
    ensures Target(webhookMethod, url) == Endpoint(webhookUrl, messageId)
  {
    url := webhookUrl;
    webhookMethod := Post;
    if messageId.Some? && messageId.value != "" {
      webhookMethod := Patch;
      url := url + "/messages/" + messageId.value;
    }
  }
}
