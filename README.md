# I-Bankruptcy-Bot: a Dafny model of the request pipeline

I-Bankruptcy-Bot is a Telegram bot that prepares a personal-bankruptcy
filing. The user uploads a PDF, DOCX or TXT document, or a photo. The bot
extracts the applicant's data from it with a language model. It then asks the
model to draft the court filing (an application to declare a citizen bankrupt
under Federal Law No. 127-FZ) and returns the filing as a Word document.

This project models the parts of that pipeline that are rules rather than
I/O, and proves what they promise:

- `wrappers.dfy`, module `Wrappers`: `Option` and `Result`. They stand for
  Python's `None` and for raised exceptions.
- `text.dfy`, module `Text`: the Python string operations the bot relies on.
  - `str.split` and `str.join` on a one-character separator, with their
    round trips.
  - `str.strip()` over Python's full `str.isspace()` set.
  - `str.lower()` on ASCII letters.
  - The slice `s[:n]`.
- `client.py` is modelled by `client.dfy`, module `Client`. It covers the
  request side of `ask_gpt`: the dispatch on `data["type"]` into the message
  list, and the `data:` URI of an image. `RequestOf` reads a message list back
  into the request it encodes.
- `ingestion.dfy`, module `Ingestion`: the pure rules inside
  `handle_document` and `generate_and_send_doc`.
  - The extension of the uploaded file name and the routing to an extractor.
  - The joining of PDF pages and DOCX paragraphs.
  - The extraction prompt, which embeds `text[:3000]` and asks for six
    fields: full name, date of birth, registered address, passport data,
    total debt and creditors.
  - The claim prompt, which embeds the model's answer whole.
  - The photo's MIME type.
- `filing.dfy`, module `Filing`: `generate_word_doc`.
  - `WordDocument` is a class whose block list grows as headings and
    paragraphs are added.
  - `GenerateWordDoc` is the loop over the answer's lines. It is proved to
    build exactly `Rendered(text)`: the fixed level-1 heading followed by the
    stripped, non-blank lines.
  - The file name `Заявление_HHMMSS.docx`.
- `handlers.dfy`, module `Handlers`: `handle_document`,
  `generate_and_send_doc` and `ask_gpt` as the sequence of observable events
  one incoming message causes:
  - replies to the user;
  - calls to the completion provider;
  - the filing saved, sent and removed.

  The provider's answers, the time of day, and whether saving, sending and
  removing the file succeed are parameters (`Env`). The outputs of the document and image
  libraries are inputs (`Parsed`, `Image`).

The names of the Russian user-facing strings, prompt texts, heading and
file-name prefix are kept character for character. That includes the
indentation the triple-quoted f-strings carry into the prompts.

## Model

| member | source | states |
|---|---|---|
| Text.IndexOfSpec | src/bot/bot.py:88 | the search for a character finds nothing exactly when the character does not occur, and otherwise finds its first occurrence |
| Text.SplitSingle | src/bot/bot.py:88 | `split` gives a single piece exactly when the separator does not occur |
| Text.SplitPiecesFree | src/bot/bot.py:41 | no piece of a split contains the separator |
| Text.JoinSplit | src/bot/bot.py:41 | joining the pieces of a split with the separator gives the string back |
| Text.SplitJoin | src/bot/bot.py:97 | splitting a join of one or more separator-free segments gives the segments back, in order |
| Text.JoinLength | src/bot/bot.py:97 | a join of N ≥ 1 segments is as long as the segments plus N − 1 separators |
| Text.SplitLast | src/bot/bot.py:88 | the last piece of a split is the separator-free suffix after the last separator, or the whole string when there is none |
| Text.LastPieceUnique | src/bot/bot.py:88 | a string has only one such last piece |
| Text.LowerAscii | src/bot/bot.py:88 | lower-casing keeps the length, turns each upper-case ASCII letter into its lower-case letter (32 code points on) and changes no other character |
| Text.LowerAsciiIdempotent | src/bot/bot.py:88 | lower-casing twice is lower-casing once |
| Text.SplitLowerAscii | src/bot/bot.py:88 | for a separator that is not a letter, the pieces of the lower-cased string are the lower-cased pieces |
| Text.TrimStartSuffix | src/bot/bot.py:42 | `lstrip` removes exactly the leading whitespace: the rest is a suffix that does not start with whitespace |
| Text.TrimEndPrefix | src/bot/bot.py:42 | `rstrip` removes exactly the trailing whitespace: the rest is a prefix that does not end with whitespace |
| Text.TrimEndPadded | src/bot/bot.py:42 | `rstrip` of a text plus trailing whitespace is the text, when the text does not end in whitespace |
| Text.StripSpec | src/bot/bot.py:42 | `strip` returns a contiguous slice of the input with only whitespace before and after it; a non-empty result neither starts nor ends with whitespace; the result is empty exactly when the input is all whitespace |
| Text.StripIsSlice | src/bot/bot.py:42 | `strip` cuts out a slice of the input and drops only whitespace around it |
| Text.StripFixedPoint | src/bot/bot.py:42 | `strip` leaves a string unchanged exactly when the string is empty or has no whitespace at either end |
| Text.StripIdempotent | src/bot/bot.py:42 | stripping twice is stripping once |
| Text.Take | src/bot/bot.py:115 | `s[:n]` is the prefix of `s` of length min(\|s\|, n) |
| Client.BuildMessages | src/bot/ai_client/client.py:26-54 | a request is accepted exactly when its type is "text", or "image" with a MIME type; an accepted request yields one message with the "user" role; any other type fails before the provider is reached. The source raises a `ValueError` whose message is fixed and does not name the type; only its log line does. The model's `UnknownType` keeps the type for the reader |
| Client.DataUriPayload | src/bot/ai_client/client.py:36 | removing the `data:<mime>;base64,` prefix from an image URL leaves exactly the base64 payload |
| Client.DataUriRoundTrip | src/bot/ai_client/client.py:36 | an image URL whose MIME type has no ';' parses back into that MIME type and that payload |
| Client.BuildMessagesRoundTrip | src/bot/ai_client/client.py:26-51 | the message list carries the request whole: a text request reads back with its content unchanged, and an image request reads back with its content and MIME type unchanged |
| Handlers.AskGptSendsRequest | src/bot/ai_client/client.py:26-62 | for every request, `ask_gpt` makes no provider call and gives no answer exactly when it cannot build the messages; otherwise it makes one call with one user message and returns the provider's answer to it; the request reads back from that message whenever an image's MIME type has no ';' |
| Handlers.AskGptDisciplined | src/bot/ai_client/client.py:58-62 | the events of one `ask_gpt` call are at most one provider call with a single user message |
| Ingestion.ExtensionAfterLastDot | src/bot/bot.py:88 | the file type is the lower-cased text after the last '.', or the whole name lower-cased when there is no '.'; it never holds a '.' |
| Ingestion.ExtensionOfSuffix | src/bot/bot.py:88 | a name ending in '.' and a dot-free extension has that extension, lower-cased, whatever the stem holds, dots included |
| Ingestion.ExtensionCaseInsensitive | src/bot/bot.py:88 | the file type of a name and of its lower-cased form agree |
| Ingestion.ExtensionOf | src/bot/bot.py:95-106 | every extractor has the one extension it is chosen for, and the refusal has none |
| Ingestion.RouteExact | src/bot/bot.py:95-109 | an extractor is chosen exactly for its own extension, and every other extension is refused |
| Ingestion.FileFormatCaseInsensitive | src/bot/bot.py:88-106 | upper- and lower-case names go to the same extractor |
| Ingestion.FileFormatExample | src/bot/bot.py:88-96 | `X.PDF` and `x.pdf` both go to the PDF extractor |
| Ingestion.JoinSegmentsRecoverable | src/bot/bot.py:95-101 | the text joined from the PDF pages or DOCX paragraphs is the segments plus one line break between each pair (empty for none); when no segment holds a line break, splitting on line breaks gives them back |
| Ingestion.ExtractionPromptEmbedsPrefix | src/bot/bot.py:113-123 | the extraction prompt embeds exactly the first min(length, 3000) characters of the text, the whole text when it is at most 3000 long, so its length is bounded |
| Ingestion.ExtractionPromptSeesOnlyPrefix | src/bot/bot.py:115 | two texts give the same extraction prompt exactly when their first 3000 characters agree |
| Ingestion.ClaimPromptEmbedsWhole | src/bot/bot.py:162-167 | the claim prompt embeds the extracted data whole and unchanged, so different data give different prompts |
| Ingestion.PhotoUri | src/bot/bot.py:145-149 | a photo's image URL starts with "data:image/" and, when the format holds no ';', parses back into `image/<format lower-cased>` and the base64 payload |
| Filing.NonBlankMembers | src/bot/bot.py:41-45 | a paragraph is kept exactly when it is the non-empty stripped form of one of the lines |
| Filing.ParagraphsWellFormed | src/bot/bot.py:41-45 | every kept paragraph is non-empty, has no whitespace at either end and holds no line break |
| Filing.NonBlankOfWellFormed | src/bot/bot.py:42-45 | lines that are already well-formed paragraphs are all kept, unchanged and in order |
| Filing.ParagraphsIdempotent | src/bot/bot.py:41-45 | the paragraphs of the joined paragraphs are the paragraphs themselves |
| Filing.RenderedShape | src/bot/bot.py:38-45 | the document is the fixed level-1 heading followed by one paragraph block per kept line, in order |
| Filing.BlankLinesDropped | src/bot/bot.py:41-45 | two paragraphs with a blank line between them, trailing spaces and a final line break give exactly the two paragraphs |
| Filing.ParagraphsExample | src/bot/bot.py:41-45 | `"Line A\n\nLine B  \n"` gives the paragraphs "Line A" and "Line B" |
| Filing.WordDocument.constructor | src/bot/bot.py:38 | a new document is empty |
| Filing.WordDocument.AddHeading | src/bot/bot.py:39 | adding a heading appends one heading block of that text and level and changes nothing else |
| Filing.WordDocument.AddParagraph | src/bot/bot.py:45 | adding a paragraph appends one paragraph block and changes nothing else |
| Filing.GenerateWordDoc | src/bot/bot.py:38-49 | the document returned is new; the loop builds exactly the heading followed by the stripped non-blank lines of the answer; the file name is the one stamped with the time of day |
| Filing.TwoDigits | src/bot/bot.py:48 | a number below 100 is written as two decimal digits that read back as the number |
| Filing.FileNameFormat | src/bot/bot.py:48-49 | the file name is `Заявление_`, six digits that read back as hour, minute and second, and `.docx` |
| Filing.FileNameInjective | src/bot/bot.py:48-49 | two times of day give the same file name exactly when they are the same second |
| Handlers.UnsupportedStopsEarly | src/bot/bot.py:106-109 | a named document gets only the refusal, with no provider call and no file, exactly when its type is not pdf, docx or txt |
| Handlers.CsvUploadRejected | src/bot/bot.py:88-109 | `report.csv` is refused with the fixed reply and nothing else happens |
| Handlers.HandleCaseInsensitive | src/bot/bot.py:88-109 | the handler treats a file name and its lower-cased form alike |
| Handlers.DocumentHappyPath | src/bot/bot.py:84-181 | when every step succeeds, a supported document causes the acknowledgement, the extraction request, the claim request built from its answer, and the filing saved under the time-stamped name, sent and removed, in that order |
| Handlers.ExtractionFailureNoFile | src/bot/bot.py:125-156 | when the extraction request fails, the user gets the acknowledgement and the general error, and no file is made |
| Handlers.PhotoRequest | src/bot/bot.py:133-152 | a photo is acknowledged and then sent as one user message holding the fixed instruction and its `data:image/...` URL |
| Handlers.RenderedWellFormed | src/bot/bot.py:38-45 | the document built from any answer is the heading followed by well-formed paragraphs |
| Handlers.DisciplinedAppend | src/bot/bot.py:159-185 | two traces that keep the event discipline still keep it joined, when the second does not start by sending or removing a file |
| Handlers.GenerateAndSendDocDisciplined | src/bot/bot.py:159-185 | the filing step saves only well-formed documents under the time-stamped name, sends only right after saving, and removes only right after sending |
| Handlers.ProcessDisciplined | src/bot/bot.py:130-131 | a request followed by the filing step keeps the same discipline |
| Handlers.HandleMessageDisciplined | src/bot/bot.py:79-185 | every trace of the handler, whatever the input and the outside world do, keeps that discipline: a file is removed only right after it was sent, which happens only right after it was saved |
| Handlers.SendFailureKeepsFile | src/bot/bot.py:179-185 | when sending fails, nothing is sent and nothing is removed, so a saved file stays behind |
| Handlers.ProcessKeepsFile | src/bot/bot.py:174-185 | the same holds for one request followed by the filing step |
| Handlers.RemoveFailureAfterDelivery | src/bot/bot.py:177-185 | when removing the file fails after it was sent, the user gets the document and then the apology, and no removal happens |

## Left out

- The Telegram transport is not modelled: downloading the file, `get_file`, the bot's setup and polling, and the `/start` and `/begin` commands (src/bot/bot.py:60-76, 188-201). A failing reply to the user is not modelled either; every reply is an event that always happens.
- PyPDF2, python-docx, PIL, base64 and UTF-8 decoding are library code. Their outputs are inputs of the model: `Parsed` and `Image`, with `None` where the library raises. The re-encoding of the photo through PIL is not modelled.
- The completion provider is `Env.complete`, a fixed function from message lists to an answer or a failure. The response structure (`choices[0].message.content`) and a `None` content are not modelled. The model name, the client object and retries are not part of this model.
- `datetime.now()` is the `Clock` parameter. Saving, sending and removing the file are events. Whether each one succeeds is a parameter (`saveSucceeds`, `sendSucceeds`, `removeSucceeds`). The file handle opened for sending is never closed in the source; that is not modelled.
- Logging and configuration (src/bot/config.py and src/bot/logger_setup.py) are not part of this model.
- Text.LowerAscii: does not model the full Unicode `str.lower()`, only ASCII letters. Python's lowering can change non-ASCII letters and even the length of a string. The file type is still routed as in the source, because no non-ASCII character lowers to a letter of "pdf", "docx" or "txt".
- Ingestion.MimeType: lower-cases the image format with the same ASCII-only rule. PIL format names are ASCII.
- Ingestion.PhotoUri: the read-back holds only for formats without ';'. PIL format names never contain one.
