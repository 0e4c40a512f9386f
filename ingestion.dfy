/**
 * The pure rules inside `handle_document` and `generate_and_send_doc`
 * (src/bot/bot.py): the file-type test on the uploaded name, the choice of
 * extractor, how the extracted pages are put together, the two prompts sent
 * to the model and the MIME type of a photo.
 */
module Ingestion {

  import opened Wrappers
  import opened Text
  import opened Client

  // ---------------------------------------------------------------------
  // File type and routing
  // ---------------------------------------------------------------------

  /** `file_name.split('.')[-1].lower()`. */
  function Extension(fileName: string): string
  {
    var pieces := Split(fileName, '.');
    LowerAscii(pieces[|pieces| - 1])
  }

  /** The extension is the lower-cased text after the last '.', or the whole
      name lower-cased when there is no '.'; it never holds a '.'. */
  lemma ExtensionAfterLastDot(fileName: string)
    ensures var e := Extension(fileName);
      '.' !in e &&
      ('.' !in fileName ==> e == LowerAscii(fileName)) &&
      ('.' in fileName ==>
        exists i :: (0 <= i < |fileName| && fileName[i] == '.' &&
                     '.' !in fileName[i + 1..] && e == LowerAscii(fileName[i + 1..])))
  {
    var pieces := Split(fileName, '.');
    var l := pieces[|pieces| - 1];
    SplitLast(fileName, '.');
    LowerKeepsDotFree(l);
    if '.' in fileName {
      LongerSuffixHasSep(fileName, l, fileName, '.');
      var i := |fileName| - |l| - 1;
      assert fileName[i + 1..] == l;
    } else {
      assert fileName[|fileName| - |fileName|..] == fileName;
      LongerSuffixHasSep(fileName, l, fileName, '.');
      assert l == fileName;
    }
  }

  /** Lower-casing neither adds nor removes a '.'. */
  lemma LowerKeepsDotFree(s: string)
    ensures '.' in LowerAscii(s) <==> '.' in s
  {
    var low := LowerAscii(s);
    if '.' in s {
      var i :| 0 <= i < |s| && s[i] == '.';
      assert low[i] == '.';
    }
    if '.' in low {
      var i :| 0 <= i < |low| && low[i] == '.';
      assert s[i] == '.';
    }
  }

  /** A name made of a stem, a '.' and a dot-free extension has that
      extension, lower-cased, whatever the stem holds. */
  lemma ExtensionOfSuffix(stem: string, ext: string)
    requires '.' !in ext
    ensures Extension(stem + "." + ext) == LowerAscii(ext)
  {
    var name := stem + "." + ext;
    var pieces := Split(name, '.');
    SplitLast(name, '.');
    assert name[|name| - |ext|..] == ext;
    assert name[|name| - |ext| - 1] == '.';
    LastPieceUnique(name, pieces[|pieces| - 1], ext, '.');
  }

  /** The extension does not depend on the case of the name. */
  lemma ExtensionCaseInsensitive(fileName: string)
    ensures Extension(LowerAscii(fileName)) == Extension(fileName)
  {
    var pieces := Split(fileName, '.');
    SplitLowerAscii(fileName, '.');
    LowerAllAt(pieces, |pieces| - 1);
    LowerAsciiIdempotent(pieces[|pieces| - 1]);
  }

  /** The extractors `handle_document` knows, and the refusal. */
  datatype Format = Pdf | Docx | Txt | Unsupported

  /** The `if/elif/else` chain on the extension. */
  function Route(extension: string): Format
  {
    if extension == "pdf" then Pdf
    else if extension == "docx" then Docx
    else if extension == "txt" then Txt
    else Unsupported
  }

  /** The extension each extractor is chosen for. */
  function ExtensionOf(f: Format): (r: Option<string>)
    ensures r.None? <==> f == Unsupported
  {
    match f
    case Pdf => Some("pdf")
    case Docx => Some("docx")
    case Txt => Some("txt")
    case Unsupported => None
  }

  /** Routing is total and exact: an extractor is chosen precisely for its
      own extension, and every other extension is refused. */
  lemma RouteExact(extension: string, f: Format)
    ensures Route(extension) == f <==>
      (if f == Unsupported then forall g :: ExtensionOf(g) != Some(extension)
       else ExtensionOf(f) == Some(extension))
  {
    if f == Unsupported && Route(extension) != Unsupported {
      assert ExtensionOf(Route(extension)) == Some(extension);
    }
  }

  /** The file type of an uploaded name. */
  function FileFormat(fileName: string): Format
  {
    Route(Extension(fileName))
  }

  /** Upper- and lower-case names are routed alike. */
  lemma FileFormatCaseInsensitive(fileName: string)
    ensures FileFormat(LowerAscii(fileName)) == FileFormat(fileName)
  {
    ExtensionCaseInsensitive(fileName);
  }

  /** `X.PDF` goes to the PDF extractor, like `x.pdf`. */
  lemma FileFormatExample()
    ensures FileFormat("X.PDF") == Pdf && FileFormat("x.pdf") == Pdf
  {
    assert "X.PDF" == "X" + "." + "PDF";
    ExtensionOfSuffix("X", "PDF");
    assert LowerAscii("PDF") == "pdf";
    assert "x.pdf" == "x" + "." + "pdf";
    ExtensionOfSuffix("x", "pdf");
    assert LowerAscii("pdf") == "pdf";
  }

  // ---------------------------------------------------------------------
  // Extracted text
  // ---------------------------------------------------------------------

  /** PDF pages and DOCX paragraphs are joined with line breaks. */
  function JoinSegments(segments: seq<string>): string
  {
    Join(segments, '\n')
  }

  /** The joined text is as long as the segments plus one line break between
      each pair (empty for no segments); and when there is at least one
      segment and none holds a line break, splitting on line breaks gives the
      segments back, in order. */
  lemma JoinSegmentsRecoverable(segments: seq<string>)
    ensures |JoinSegments(segments)| ==
      if segments == [] then 0 else TotalLength(segments) + |segments| - 1
    ensures segments != [] && (forall i :: 0 <= i < |segments| ==> '\n' !in segments[i]) ==>
      Split(JoinSegments(segments), '\n') == segments
  {
    if segments != [] {
      JoinLength(segments, '\n');
      if forall i :: 0 <= i < |segments| ==> '\n' !in segments[i] {
        SplitJoin(segments, '\n');
      }
    }
  }

  // ---------------------------------------------------------------------
  // Prompts
  // ---------------------------------------------------------------------

  /** At most this many characters of the extracted text reach the model. */
  const MaxPromptText := 3000

  const Indent8 := "        "
  const Indent12 := Indent8 + "    "
  const Indent16 := Indent12 + "    "

  /** The extraction prompt up to the embedded text. */
  const ExtractionHead := "\n" + Indent16 + "На основании следующего текста из документа:\n" + Indent16

  /** The extraction prompt after the embedded text: the fields to extract. */
  const ExtractionTail :=
    "\n" + Indent16 + "Извлеки анкетные данные заявителя и информацию о долгах:\n" +
    Indent16 + "- ФИО (если есть)\n" +
    Indent16 + "- Дата рождения (если есть)\n" +
    Indent16 + "- Адрес регистрации (если есть)\n" +
    Indent16 + "- Паспортные данные (если есть)\n" +
    Indent16 + "- Общая сумма долга (если есть)\n" +
    Indent16 + "- Кредиторы (если есть)\n" +
    Indent12

  /** The prompt asking the model for the applicant's data, with the first
      3000 characters of the document. */
  function ExtractionPrompt(text: string): string
  {
    ExtractionHead + Take(text, MaxPromptText) + ExtractionTail
  }

  /** The extraction prompt embeds exactly `text[:3000]`: a prefix of the
      text of length min(|text|, 3000), which is all of a text of at most 3000
      characters; so the prompt is never longer than its frame plus 3000. */
  lemma ExtractionPromptEmbedsPrefix(text: string)
    ensures var embedded := Between(ExtractionPrompt(text), ExtractionHead, ExtractionTail);
      embedded.Some? &&
      |embedded.value| == (if |text| <= MaxPromptText then |text| else MaxPromptText) &&
      embedded.value == text[..|embedded.value|] &&
      (|text| <= MaxPromptText ==> embedded.value == text)
    ensures |ExtractionPrompt(text)| <= |ExtractionHead| + MaxPromptText + |ExtractionTail|
  {
    BetweenFrame(ExtractionHead, Take(text, MaxPromptText), ExtractionTail);
  }

  /** Two documents give the same extraction prompt exactly when their first
      3000 characters agree. */
  lemma ExtractionPromptSeesOnlyPrefix(a: string, b: string)
    ensures ExtractionPrompt(a) == ExtractionPrompt(b) <==>
      Take(a, MaxPromptText) == Take(b, MaxPromptText)
  {
    BetweenFrame(ExtractionHead, Take(a, MaxPromptText), ExtractionTail);
    BetweenFrame(ExtractionHead, Take(b, MaxPromptText), ExtractionTail);
  }

  /** The claim prompt up to the embedded answer. */
  const ClaimHead := "\n" + Indent12 + "На основании следующих данных:\n" + Indent12

  /** The claim prompt after the embedded answer: the drafting instruction. */
  const ClaimTail :=
    "\n" + Indent12 + "\n" + Indent12 +
    "Составь официальное заявление в суд о признании гражданина банкротом согласно ФЗ №127-ФЗ.\n" +
    Indent8

  /** The prompt asking the model to draft the bankruptcy filing from the
      extracted data. */
  function ClaimPrompt(data: string): string
  {
    ClaimHead + data + ClaimTail
  }

  /** The claim prompt embeds the extracted data whole and unchanged, so
      different data always give different prompts. */
  lemma ClaimPromptEmbedsWhole(data: string, other: string)
    ensures Between(ClaimPrompt(data), ClaimHead, ClaimTail) == Some(data)
    ensures |ClaimPrompt(data)| == |ClaimHead| + |data| + |ClaimTail|
    ensures ClaimPrompt(data) == ClaimPrompt(other) <==> data == other
  {
    BetweenFrame(ClaimHead, data, ClaimTail);
    BetweenFrame(ClaimHead, other, ClaimTail);
  }

  // ---------------------------------------------------------------------
  // Photos
  // ---------------------------------------------------------------------

  const ImageMediaType := "image/"

  /** `f"image/{image.format.lower()}"`. */
  function MimeType(imageFormat: string): string
  {
    ImageMediaType + LowerAscii(imageFormat)
  }

  /** The data URI of a photo starts with "data:image/", names the
      lower-cased image format and reads back as that MIME type and the
      base64 payload, as long as the format holds no ';'. */
  lemma PhotoUri(imageFormat: string, payload: string)
    ensures var url := DataUri(MimeType(imageFormat), payload);
      |DataScheme + ImageMediaType| <= |url| &&
      url[..|DataScheme + ImageMediaType|] == "data:image/"
    ensures ';' !in imageFormat ==>
      ParseDataUri(DataUri(MimeType(imageFormat), payload)) ==
        Some((ImageMediaType + LowerAscii(imageFormat), payload))
  {
    var mime := MimeType(imageFormat);
    var url := DataUri(mime, payload);
    assert url == (DataScheme + ImageMediaType) + (LowerAscii(imageFormat) + Base64Marker + payload);
    if ';' !in imageFormat {
      assert ';' !in mime by {
        forall i | 0 <= i < |mime|
          ensures mime[i] != ';'
        {
          if i >= |ImageMediaType| {
            assert mime[i] == LowerAscii(imageFormat)[i - |ImageMediaType|];
          }
        }
      }
      DataUriRoundTrip(mime, payload);
    }
  }
}
