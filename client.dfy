/**
 * The request side of `ask_gpt` (src/bot/ai_client/client.py): the
 * dictionary it receives is dispatched on its "type" into the role-tagged
 * message list handed to the completion provider. The provider call itself
 * is not part of this module; see Handlers.AskGpt for where it sits.
 */
module Client {

  import opened Wrappers
  import opened Text

  /** The dictionary passed to `ask_gpt`: its "type", its "content" and the
      "mime_type" key, which only image requests carry. */
  datatype Request = Request(kind: string, content: string, mimeType: Option<string>)

  /** A typed content block of a multimodal message. */
  datatype Part = TextPart(text: string) | ImageUrlPart(url: string)

  /** A message's "content": a plain string or an ordered list of blocks. */
  datatype Content = PlainText(text: string) | Parts(parts: seq<Part>)

  datatype Message = Message(role: string, content: Content)

  /** The exceptions raised before the provider is reached: the `ValueError`
      for an unknown "type", and the `KeyError` of an image request without
      "mime_type". */
  datatype ClientError = UnknownType(kind: string) | MissingMimeType

  const UserRole := "user"
  const ImageInstruction := "Распознай текст и извлеки анкетные данные с этой фотографии."
  const DataScheme := "data:"
  const Base64Marker := ";base64,"

  /** The image URL: a data URI in the base64 form of RFC 2397. */
  function DataUri(mimeType: string, payload: string): string
  {
    DataScheme + mimeType + Base64Marker + payload
  }

  /** The message list `ask_gpt` sends, or the exception it raises instead. */
  function BuildMessages(data: Request): (r: Result<seq<Message>, ClientError>)
    ensures r.Success? <==> data.kind == "text" || (data.kind == "image" && data.mimeType.Some?)
    ensures r.Success? ==> |r.value| == 1 && r.value[0].role == UserRole
    ensures data.kind != "text" && data.kind != "image" ==> r == Failure(UnknownType(data.kind))
  {
    if data.kind == "text" then
      Success([Message(UserRole, PlainText(data.content))])
    else if data.kind == "image" then
      match data.mimeType
      case None => Failure(MissingMimeType)
      case Some(mime) =>
        Success([Message(UserRole, Parts([TextPart(ImageInstruction),
                                          ImageUrlPart(DataUri(mime, data.content))]))])
    else
      Failure(UnknownType(data.kind))
  }

  // ---------------------------------------------------------------------
  // Reading a request back out of the messages
  // ---------------------------------------------------------------------

  /** Reads a base64 data URI back into its media type and payload. */
  function ParseDataUri(url: string): Option<(string, string)>
  {
    match Between(url, DataScheme, "")
    case None => None
    case Some(rest) =>
      match IndexOf(rest, ';')
      case None => None
      case Some(k) =>
        match Between(rest[k..], Base64Marker, "")
        case None => None
        case Some(payload) => Some((rest[..k], payload))
  }

  /** A data URI whose media type has no parameters (no ';') reads back as
      the media type and payload it was built from. */
  lemma DataUriRoundTrip(mimeType: string, payload: string)
    requires ';' !in mimeType
    ensures ParseDataUri(DataUri(mimeType, payload)) == Some((mimeType, payload))
  {
    var url := DataUri(mimeType, payload);
    var tail := Base64Marker + payload;
    var rest := mimeType + tail;
    assert Between(url, DataScheme, "") == Some(rest) by {
      assert url == DataScheme + rest + "";
      BetweenFrame(DataScheme, rest, "");
    }
    assert IndexOf(rest, ';') == Some(|mimeType|) by {
      IndexOfAfterPlain(mimeType, tail, ';');
    }
    assert Between(rest[|mimeType|..], Base64Marker, "") == Some(payload) by {
      assert rest[|mimeType|..] == Base64Marker + payload + "";
      BetweenFrame(Base64Marker, payload, "");
    }
    assert rest[..|mimeType|] == mimeType;
  }

  /** Removing the known prefix of a data URI leaves the payload. */
  lemma DataUriPayload(mimeType: string, payload: string)
    ensures Between(DataUri(mimeType, payload), DataScheme + mimeType + Base64Marker, "") == Some(payload)
  {
    assert DataUri(mimeType, payload) == (DataScheme + mimeType + Base64Marker) + payload + "";
    BetweenFrame(DataScheme + mimeType + Base64Marker, payload, "");
  }

  /** What a provider can read off a message list: the request it encodes. */
  function RequestOf(messages: seq<Message>): Option<Request>
  {
    if |messages| != 1 || messages[0].role != UserRole then None
    else match messages[0].content
      case PlainText(t) => Some(Request("text", t, None))
      case Parts(ps) =>
        if |ps| != 2 || ps[0] != TextPart(ImageInstruction) || !ps[1].ImageUrlPart? then None
        else match ParseDataUri(ps[1].url)
          case None => None
          case Some((mime, payload)) => Some(Request("image", payload, Some(mime)))
  }

  /** The messages carry the request whole: a text request's content is the
      single user message verbatim; an image request becomes the fixed
      instruction followed by the image URL, from which its content and MIME
      type are recovered unchanged. */
  lemma {:induction false} BuildMessagesRoundTrip(data: Request)
    requires data.kind == "text" || (data.kind == "image" && data.mimeType.Some?)
    requires data.kind == "image" ==> ';' !in data.mimeType.value
    ensures RequestOf(BuildMessages(data).value)
      == Some(if data.kind == "text" then Request("text", data.content, None) else data)
  {
    if data.kind == "image" {
      DataUriRoundTrip(data.mimeType.value, data.content);
    }
  }
}
