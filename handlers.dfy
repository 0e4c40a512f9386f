/**
 * `handle_document` and `generate_and_send_doc` (src/bot/bot.py) around
 * `ask_gpt` (src/bot/ai_client/client.py), as the sequence of observable
 * events one incoming message causes: replies to the user, requests to the
 * completion provider, and the filing document saved, sent and removed.
 * The outside world (the provider's answers, the clock, the file system and
 * the Telegram upload) is a parameter.
 */
module Handlers {

  import opened Wrappers
  import opened Text
  import opened Client
  import opened Filing
  import opened Ingestion

  const UnsupportedReply := "Поддерживаются только форматы: PDF, DOCX, TXT."
  const DocumentReceivedReply := "Обрабатываю документ..."
  const ImageReceivedReply := "Обрабатываю изображение..."
  const GenericErrorReply := "Произошла ошибка при обработке вашего документа."
  const ClaimFailedReply := "Не удалось сформировать заявление. Попробуйте позже."

  /** What the document libraries make of the uploaded bytes, each `None`
      where that library raises: the PDF reader's page texts, the DOCX
      reader's paragraph texts, and the UTF-8 decoding. */
  datatype Parsed = Parsed(pdfPages: Option<seq<string>>,
                           docxParagraphs: Option<seq<string>>,
                           utf8Text: Option<string>)

  /** A photo as the imaging library hands it over: its format name and the
      base64 text of its re-encoding. */
  datatype Image = Image(format: string, base64: string)

  /** The part of an incoming message the handler looks at. A document
      without a file name is possible in Telegram. `None` for a photo stands
      for an image the library cannot open or re-encode. */
  datatype Inbound =
    | DocumentUpload(fileName: Option<string>, parsed: Parsed)
    | PhotoUpload(image: Option<Image>)
    | NoAttachment

  /** The outside world during one message: what the provider answers to a
      message list (`None` when the call raises), the time of day, and
      whether saving, sending and removing the document succeed. */
  datatype Env = Env(complete: seq<Message> -> Option<string>, now: Clock,
                     saveSucceeds: bool, sendSucceeds: bool, removeSucceeds: bool)

  /** What the bot does that can be observed from outside. */
  datatype Event =
    | Reply(text: string)
    | ProviderCall(messages: seq<Message>)
    | SaveFile(name: string, blocks: seq<Block>)
    | SendFile(name: string)
    | RemoveFile(name: string)

  /** The effect of one `ask_gpt` call: its events, and the answer, `None`
      when it raises. */
  datatype Outcome = Outcome(events: seq<Event>, answer: Option<string>)

  /** `ask_gpt`: build the messages, then call the provider with them. */
  function AskGpt(env: Env, data: Request): Outcome
  {
    match BuildMessages(data)
    case Failure(_) => Outcome([], None)
    case Success(messages) => Outcome([ProviderCall(messages)], env.complete(messages))
  }

  /** A request `ask_gpt` cannot build raises before the provider is called,
      so nothing is sent; otherwise exactly one call is made, carrying one
      user message from which the request is read back unchanged. */
  lemma AskGptSendsRequest(env: Env, data: Request)
    ensures var o := AskGpt(env, data);
      (BuildMessages(data).Failure? <==> o.events == []) &&
      (o.events == [] ==> o.answer == None) &&
      (o.events != [] ==>
        (|o.events| == 1 && o.events[0].ProviderCall? &&
         |o.events[0].messages| == 1 && o.events[0].messages[0].role == UserRole &&
         o.answer == env.complete(o.events[0].messages)))
    ensures var o := AskGpt(env, data);
      o.events != [] && (data.kind == "image" ==> ';' !in data.mimeType.value) ==>
        RequestOf(o.events[0].messages) ==
          Some(if data.kind == "text" then Request("text", data.content, None) else data)
  {
    if BuildMessages(data).Success? && (data.kind == "image" ==> ';' !in data.mimeType.value) {
      BuildMessagesRoundTrip(data);
    }
  }

  /** The text each extractor yields, `None` when its library raises. */
  function ExtractText(format: Format, parsed: Parsed): Option<string>
    requires format != Unsupported
  {
    match format
    case Pdf =>
      (match parsed.pdfPages case None => None case Some(pages) => Some(JoinSegments(pages)))
    case Docx =>
      (match parsed.docxParagraphs case None => None case Some(ps) => Some(JoinSegments(ps)))
    case Txt => parsed.utf8Text
  }

  /** `generate_and_send_doc`: ask for the filing, build the document, save
      it, send it, remove it; any failure ends with the apology. */
  function GenerateAndSendDoc(env: Env, data: string): seq<Event>
  {
    var o := AskGpt(env, Request("text", ClaimPrompt(data), None));
    o.events +
    match o.answer
    case None => [Reply(ClaimFailedReply)]
    case Some(claim) =>
      var name := FileName(env.now);
      if !env.saveSucceeds then [Reply(ClaimFailedReply)]
      else ([SaveFile(name, Rendered(claim))] +
            (if !env.sendSucceeds then [Reply(ClaimFailedReply)]
               else [SendFile(name)] + (if env.removeSucceeds then [RemoveFile(name)] else [Reply(ClaimFailedReply)])))
  }

  /** Send a request; on success hand the answer to the filing step, on
      failure apologise in general terms. */
  function Process(env: Env, data: Request): seq<Event>
  {
    var o := AskGpt(env, data);
    o.events +
    match o.answer
    case None => [Reply(GenericErrorReply)]
    case Some(answer) => GenerateAndSendDoc(env, answer)
  }

  /** `handle_document`. */
  function HandleMessage(env: Env, msg: Inbound): seq<Event>
  {
    match msg
    case NoAttachment => []
    case DocumentUpload(fileName, parsed) =>
      (match fileName
       case None => [Reply(GenericErrorReply)]
       case Some(name) =>
         var format := FileFormat(name);
         if format == Unsupported then [Reply(UnsupportedReply)]
         else match ExtractText(format, parsed)
           case None => [Reply(GenericErrorReply)]
           case Some(text) =>
             [Reply(DocumentReceivedReply)] + Process(env, Request("text", ExtractionPrompt(text), None)))
    case PhotoUpload(image) =>
      match image
      case None => [Reply(GenericErrorReply)]
      case Some(img) =>
        [Reply(ImageReceivedReply)] +
          Process(env, Request("image", img.base64, Some(MimeType(img.format))))
  }

  // ---------------------------------------------------------------------
  // Routing
  // ---------------------------------------------------------------------

  /** A document is refused with the fixed reply, and nothing else happens,
      exactly when its extension is not one of pdf, docx, txt. */
  lemma UnsupportedStopsEarly(env: Env, name: string, parsed: Parsed)
    ensures HandleMessage(env, DocumentUpload(Some(name), parsed)) == [Reply(UnsupportedReply)]
      <==> FileFormat(name) == Unsupported
  {
    var events := HandleMessage(env, DocumentUpload(Some(name), parsed));
    if FileFormat(name) != Unsupported {
      assert events[0] != Reply(UnsupportedReply);
    }
  }

  /** A `.csv` upload is rejected with the fixed reply and no provider call. */
  lemma CsvUploadRejected(env: Env, parsed: Parsed)
    ensures HandleMessage(env, DocumentUpload(Some("report.csv"), parsed)) == [Reply(UnsupportedReply)]
  {
    assert "report.csv" == "report" + "." + "csv";
    ExtensionOfSuffix("report", "csv");
    assert LowerAscii("csv") == "csv";
  }

  /** The handler treats a file name and its lower-cased form alike. */
  lemma HandleCaseInsensitive(env: Env, name: string, parsed: Parsed)
    ensures HandleMessage(env, DocumentUpload(Some(LowerAscii(name)), parsed)) ==
      HandleMessage(env, DocumentUpload(Some(name), parsed))
  {
    FileFormatCaseInsensitive(name);
  }

  // ---------------------------------------------------------------------
  // The request path end to end
  // ---------------------------------------------------------------------

  /** The message list `ask_gpt` sends for a text request. */
  function TextMessages(content: string): seq<Message>
  {
    BuildMessages(Request("text", content, None)).value
  }

  /** When every step succeeds, a supported document causes exactly this:
      the acknowledgement, the extraction request with the document's first
      3000 characters, the claim request with the extracted data, then the
      filing document saved under the time-stamped name, sent and removed. */
  lemma DocumentHappyPath(env: Env, name: string, parsed: Parsed, text: string)
    requires FileFormat(name) != Unsupported
    requires ExtractText(FileFormat(name), parsed) == Some(text)
    requires env.complete(TextMessages(ExtractionPrompt(text))).Some?
    requires var data := env.complete(TextMessages(ExtractionPrompt(text))).value;
      env.complete(TextMessages(ClaimPrompt(data))).Some?
    requires env.saveSucceeds && env.sendSucceeds && env.removeSucceeds
    ensures var first := TextMessages(ExtractionPrompt(text));
      var data := env.complete(first).value;
      var second := TextMessages(ClaimPrompt(data));
      var claim := env.complete(second).value;
      HandleMessage(env, DocumentUpload(Some(name), parsed)) ==
        [Reply(DocumentReceivedReply), ProviderCall(first), ProviderCall(second),
         SaveFile(FileName(env.now), Rendered(claim)),
         SendFile(FileName(env.now)), RemoveFile(FileName(env.now))]
  {
  }

  /** If the provider fails on the extraction request, the user gets the
      acknowledgement and then the general error, and no file is made. */
  lemma ExtractionFailureNoFile(env: Env, name: string, parsed: Parsed, text: string)
    requires FileFormat(name) != Unsupported
    requires ExtractText(FileFormat(name), parsed) == Some(text)
    requires env.complete(TextMessages(ExtractionPrompt(text))).None?
    ensures HandleMessage(env, DocumentUpload(Some(name), parsed)) ==
      [Reply(DocumentReceivedReply), ProviderCall(TextMessages(ExtractionPrompt(text))),
       Reply(GenericErrorReply)]
  {
  }

  /** A photo is acknowledged and then sent as one user message: the fixed
      instruction, then its data URI, which starts with "data:image/" and
      carries the MIME type `image/<format lower-cased>`. */
  lemma PhotoRequest(env: Env, img: Image)
    ensures var events := HandleMessage(env, PhotoUpload(Some(img)));
      var url := DataUri(MimeType(img.format), img.base64);
      |events| >= 2 && events[0] == Reply(ImageReceivedReply) &&
      events[1] == ProviderCall([Message(UserRole, Parts([TextPart(ImageInstruction), ImageUrlPart(url)]))]) &&
      |"data:image/"| <= |url| && url[..|"data:image/"|] == "data:image/"
  {
    PhotoUri(img.format, img.base64);
  }

  // ---------------------------------------------------------------------
  // Invariants of every trace
  // ---------------------------------------------------------------------

  /** A saved filing: the heading, then well-formed paragraphs. */
  predicate WellFormedDocument(blocks: seq<Block>)
  {
    |blocks| >= 1 && blocks[0] == Heading(Title, TitleLevel) &&
    forall k :: 1 <= k < |blocks| ==> blocks[k].Paragraph? && WellFormedParagraph(blocks[k].text)
  }

  /** What holds of every event of a trace: each provider call carries one
      user message; each saved file has the time-stamped name and a
      well-formed document; a file is sent only right after it is saved, and
      removed only right after it is sent. */
  predicate Disciplined(events: seq<Event>, now: Clock)
  {
    forall i :: 0 <= i < |events| ==> EventOk(events, i, now)
  }

  predicate EventOk(events: seq<Event>, i: nat, now: Clock)
    requires i < |events|
  {
    match events[i]
    case ProviderCall(ms) => |ms| == 1 && ms[0].role == UserRole
    case SaveFile(name, blocks) => name == FileName(now) && WellFormedDocument(blocks)
    case SendFile(name) => i > 0 && events[i - 1].SaveFile? && events[i - 1].name == name
    case RemoveFile(name) => i > 0 && events[i - 1] == SendFile(name)
    case Reply(_) => true
  }

  /** Two disciplined traces make a disciplined trace when the second does
      not start by sending or removing. */
  lemma DisciplinedAppend(a: seq<Event>, b: seq<Event>, now: Clock)
    requires Disciplined(a, now) && Disciplined(b, now)
    requires b != [] ==> !b[0].SendFile? && !b[0].RemoveFile?
    ensures Disciplined(a + b, now)
  {
    var c := a + b;
    forall i | 0 <= i < |c|
      ensures EventOk(c, i, now)
    {
      if i < |a| {
        assert c[i] == a[i];
        assert EventOk(a, i, now);
        if i > 0 {
          assert c[i - 1] == a[i - 1];
        }
      } else {
        var j := i - |a|;
        assert c[i] == b[j];
        assert EventOk(b, j, now);
        if j > 0 {
          assert c[i - 1] == b[j - 1];
        }
      }
    }
  }

  /** The document built from any answer is well formed. */
  lemma RenderedWellFormed(claim: string)
    ensures WellFormedDocument(Rendered(claim))
  {
    var ps := Paragraphs(claim);
    RenderedShape(claim);
    ParagraphsWellFormed(claim);
    forall k | 1 <= k < |Rendered(claim)|
      ensures Rendered(claim)[k].Paragraph? && WellFormedParagraph(Rendered(claim)[k].text)
    {
      assert ps[k - 1] in ps;
    }
  }

  lemma AskGptDisciplined(env: Env, data: Request)
    ensures var events := AskGpt(env, data).events;
      Disciplined(events, env.now) && (events != [] ==> events[0].ProviderCall?)
  {
    var events := AskGpt(env, data).events;
    forall i | 0 <= i < |events|
      ensures EventOk(events, i, env.now)
    {
    }
  }

  lemma GenerateAndSendDocDisciplined(env: Env, data: string)
    ensures var events := GenerateAndSendDoc(env, data);
      Disciplined(events, env.now) && (events != [] ==> !events[0].SendFile? && !events[0].RemoveFile?)
  {
    var o := AskGpt(env, Request("text", ClaimPrompt(data), None));
    AskGptDisciplined(env, Request("text", ClaimPrompt(data), None));
    var tail: seq<Event> :=
      match o.answer
      case None => [Reply(ClaimFailedReply)]
      case Some(claim) =>
        var name := FileName(env.now);
        if !env.saveSucceeds then [Reply(ClaimFailedReply)]
        else ([SaveFile(name, Rendered(claim))] +
              (if !env.sendSucceeds then [Reply(ClaimFailedReply)]
               else [SendFile(name)] + (if env.removeSucceeds then [RemoveFile(name)] else [Reply(ClaimFailedReply)])));
    assert GenerateAndSendDoc(env, data) == o.events + tail;
    if o.answer.Some? {
      RenderedWellFormed(o.answer.value);
    }
    assert Disciplined(tail, env.now) by {
      forall i | 0 <= i < |tail|
        ensures EventOk(tail, i, env.now)
      {
      }
    }
    DisciplinedAppend(o.events, tail, env.now);
  }

  lemma ProcessDisciplined(env: Env, data: Request)
    ensures var events := Process(env, data);
      Disciplined(events, env.now) && (events != [] ==> !events[0].SendFile? && !events[0].RemoveFile?)
  {
    var o := AskGpt(env, data);
    AskGptDisciplined(env, data);
    match o.answer
    case None =>
      assert Disciplined([Reply(GenericErrorReply)], env.now);
      DisciplinedAppend(o.events, [Reply(GenericErrorReply)], env.now);
    case Some(answer) =>
      GenerateAndSendDocDisciplined(env, answer);
      DisciplinedAppend(o.events, GenerateAndSendDoc(env, answer), env.now);
  }

  /** Every trace of the handler keeps the discipline: provider calls carry
      a single user message, saved documents are well formed and carry the
      time-stamped name, and a file is removed only right after it was sent,
      which happens only right after it was saved. */
  lemma HandleMessageDisciplined(env: Env, msg: Inbound)
    ensures Disciplined(HandleMessage(env, msg), env.now)
  {
    match msg
    case NoAttachment =>
    case DocumentUpload(fileName, parsed) =>
      if fileName.Some? && FileFormat(fileName.value) != Unsupported {
        var format := FileFormat(fileName.value);
        if ExtractText(format, parsed).Some? {
          var data := Request("text", ExtractionPrompt(ExtractText(format, parsed).value), None);
          ProcessDisciplined(env, data);
          DisciplinedAppend([Reply(DocumentReceivedReply)], Process(env, data), env.now);
        }
      }
    case PhotoUpload(image) =>
      if image.Some? {
        var data := Request("image", image.value.base64, Some(MimeType(image.value.format)));
        ProcessDisciplined(env, data);
        DisciplinedAppend([Reply(ImageReceivedReply)], Process(env, data), env.now);
      }
  }

  /** When sending fails, nothing is sent and the saved file is not
      removed: it stays behind. */
  lemma SendFailureKeepsFile(env: Env, msg: Inbound)
    requires !env.sendSucceeds
    ensures forall e :: e in HandleMessage(env, msg) ==> !e.SendFile? && !e.RemoveFile?
  {
    match msg
    case NoAttachment =>
    case DocumentUpload(fileName, parsed) =>
      if fileName.Some? && FileFormat(fileName.value) != Unsupported {
        var format := FileFormat(fileName.value);
        if ExtractText(format, parsed).Some? {
          ProcessKeepsFile(env, Request("text", ExtractionPrompt(ExtractText(format, parsed).value), None));
        }
      }
    case PhotoUpload(image) =>
      if image.Some? {
        ProcessKeepsFile(env, Request("image", image.value.base64, Some(MimeType(image.value.format))));
      }
  }

  /** When removing fails after the document was delivered, the user still
      gets the apology, and the file stays behind. */
  lemma RemoveFailureAfterDelivery(env: Env, data: string, claim: string)
    requires env.complete(TextMessages(ClaimPrompt(data))) == Some(claim)
    requires env.saveSucceeds && env.sendSucceeds && !env.removeSucceeds
    ensures GenerateAndSendDoc(env, data) ==
      [ProviderCall(TextMessages(ClaimPrompt(data))), SaveFile(FileName(env.now), Rendered(claim)),
       SendFile(FileName(env.now)), Reply(ClaimFailedReply)]
  {
  }

  lemma ProcessKeepsFile(env: Env, data: Request)
    requires !env.sendSucceeds
    ensures forall e :: e in Process(env, data) ==> !e.SendFile? && !e.RemoveFile?
  {
    var o := AskGpt(env, data);
    if o.answer.Some? {
      var o2 := AskGpt(env, Request("text", ClaimPrompt(o.answer.value), None));
      assert forall e :: e in o2.events ==> e.ProviderCall?;
    }
  }
}
