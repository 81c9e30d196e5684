/** `WhatsAppService` of app/service/whatsapp_service.py: turns one webhook into at most one
    handled message, and one message into extracted text, structured purchase data, a saved
    JSON file and a reply.

    The WhatsApp Graph API helpers it calls (`is_message_already_processed`,
    `download_and_save_whatsapp_media_to_local_fs`, `check_webhook_type`, `get_data_to_send`,
    `send_message`), Tesseract, the language-model providers, the clock, the settings and the
    file system are outside the model: what each of them answers for the message at hand is a
    field of a `World`, an exception being an `Err` with its text. What the service does to the
    outside world is recorded, in order, as a trace of `Call`s. */
module WhatsAppService {
  import opened Wrappers
  import opened PyStr
  import opened Helpers
  import opened JsonText
  import opened OcrTools
  import opened LlmTools

  /** What the outside world answers about the media of the message at hand. */
  datatype Media = Media(
    /** `wpp_tools.download_and_save_whatsapp_media_to_local_fs(message)`: the local path. */
    download: Result<string>,
    /** What Tesseract reads from the image at a path. */
    tesseract: string -> Result<string>,
    /** The OCR text directory setting. */
    ocrTextDir: string,
    /** The exception saving the OCR text raises, if any: the directory setting missing from
        the configuration, or the directory or the file failing to open. */
    ocrSaveError: Option<string>,
    /** What OpenAI and Groq transcribe from the audio file at a path. */
    audioOpenai: string -> Result<string>,
    audioGroq: string -> Result<string>)

  /** The answers of everything the service consults while handling one webhook. */
  datatype World = World(
    /** `wpp_tools.is_message_already_processed(message)`. */
    alreadyProcessed: Result<bool>,
    media: Media,
    /** What OpenAI and Groq extract, already parsed, from a text. */
    infoOpenai: string -> Result<Purchase>,
    infoGroq: string -> Result<Purchase>,
    /** `datetime.now()`, formatted. */
    now: string,
    /** The JSON output directory setting; `None` when the settings lack it. */
    outputDir: Option<string>,
    /** Whether writing the JSON output file succeeds. */
    writeOk: bool,
    /** `wpp_tools.get_data_to_send(...)`. */
    dataToSend: Result<Json>,
    /** The exception `wpp_tools.send_message(...)` raises, if any. */
    sendError: Option<string>,
    /** `wpp_tools.check_webhook_type(webhook)`. */
    webhookType: Result<string>)

  /** What the service does to the outside world. */
  datatype Call =
    | CheckWebhookType
    | CheckProcessed(messageId: string)
    | DownloadMedia(messageId: string)
    | WriteJson(path: string, content: string)
    | PrepareReply(to: string, text: string)
    | SendReply(data: Json)

  /** A `JSONResponse`. */
  datatype Response = Response(status: int, content: Json)

  /** The response, the calls made in order, and the OCR text files saved on the way. */
  datatype Outcome = Outcome(response: Response, trace: seq<Call>, ocrSaved: seq<(string, string)>)

  function Envelope(status: string, message: string): Json {
    JDict([("status", JStr(status)), ("message", JStr(message))])
  }

  const Skipped: Response := Response(200, Envelope("skipped", "Message already processed"))

  function Success(info: string): Response {
    Response(200, JDict([
      ("status", JStr("success")),
      ("message", JStr("Message handled successfully")),
      ("data", JStr(info))]))
  }

  /** The answer to any exception: its text, with status 500. */
  function Failure(message: string): Response {
    Response(500, Envelope("error", message))
  }

  function Processed(kind: string): Response {
    Response(200, Envelope("ok", "Processed " + kind + " webhook"))
  }

  const InvalidMessage := "Invalid message format"
  const InvalidWebhook := "Invalid webhook format"
  /** The text of Python's `IndexError` on a list. */
  const IndexOutOfRange := "list index out of range"
  /** The text of Python's `TypeError` on indexing `None`. */
  const NotSubscriptable := "'NoneType' object is not subscriptable"
  /** The text of the `UnboundLocalError` raised by reading `output_path` before it was bound,
      as Python 3.11 and later word it; Python 3.10 and earlier say "local variable
      'output_path' referenced before assignment". */
  const UnboundOutputPath := "cannot access local variable 'output_path' where it is not associated with a value"

  // ---- _extract_text_from_message ----

  /** The text of a message. The media is downloaded first, whatever the type, and any failure
      (of the download, of a missing `text` part, of Tesseract, of an unsupported OCR processor,
      of saving the OCR text, of both transcription providers, which leaves no `text` key) gives
      the empty text. */
  function ExtractedText(m: Message, w: Media, processor: string, default: string): string {
    match w.download
    case Err(_) => ""
    case Ok(path) =>
      if m.msgType == "text" then
        if m.textBody.Some? then m.textBody.value else ""
      else if m.msgType == "image" then
        if processor == "pytesseract" && w.tesseract(path).Ok? && w.ocrSaveError.None? then
          Clean(w.tesseract(path).value)
        else ""
      else if m.msgType == "audio" then
        match Fallback(ProviderList(default), w.audioOpenai(path), w.audioGroq(path))
        case Ok(t) => t
        case Err(_) => ""
      else ""
  }

  /** The OCR text files saved while extracting the text of `m`. */
  function OcrSaved(m: Message, w: Media, processor: string): seq<(string, string)> {
    match w.download
    case Err(_) => []
    case Ok(path) =>
      if m.msgType == "image" && processor == "pytesseract" && w.tesseract(path).Ok? && w.ocrSaveError.None? then
        [(OcrTextPath(w.ocrTextDir, path), Clean(w.tesseract(path).value))]
      else []
  }

  // ---- _get_text_info ----

  /** The structured information about `text`, as `json.dumps` writes it. */
  function InfoText(text: string, w: World, default: string): string {
    Dumps(TextInfo(default, w.infoOpenai(text), w.infoGroq(text), w.now))
  }

  // ---- _save_output_json ----

  /** The file written by a save that never lets an exception out: `<message id>.json` in the
      output directory, when the directory is configured and the write succeeds. */
  function SaveCalls(info: string, messageId: string, outputDir: Option<string>, writeOk: bool): seq<Call> {
    if outputDir.Some? && writeOk then [WriteJson(PathJoin(outputDir.value, messageId + ".json"), info)] else []
  }

  /** The exception the save lets out as written: when looking up the output directory fails,
      `output_path` is still unbound when the handler logs it. */
  function SaveRaisesAsWritten(outputDir: Option<string>): Option<string> {
    if outputDir.None? then Some(UnboundOutputPath) else None
  }

  // ---- _handle_message ----

  /** A message not processed before: extract, structure, save, then prepare and send the
      reply. `saveRaises` is the exception the save lets out, if any. */
  function HandleFresh(m: Message, w: World, processor: string, default: string, saveRaises: Option<string>): Outcome {
    var text := ExtractedText(m, w.media, processor, default);
    var info := InfoText(text, w, default);
    var ocr := OcrSaved(m, w.media, processor);
    var extracted := [CheckProcessed(m.id), DownloadMedia(m.id)];
    if saveRaises.Some? then
      Outcome(Failure(saveRaises.value), extracted, ocr)
    else
      var prepared := extracted + SaveCalls(info, m.id, w.outputDir, w.writeOk) + [PrepareReply(m.from_, info)];
      match w.dataToSend
      case Err(e) => Outcome(Failure(e), prepared, ocr)
      case Ok(d) =>
        Outcome(if w.sendError.Some? then Failure(w.sendError.value) else Success(info), prepared + [SendReply(d)], ocr)
  }

  /** `_handle_message`, given how the save behaves. */
  function HandleWith(m: Message, w: World, processor: string, default: string, saveRaises: Option<string>): Outcome {
    if m.msgType == "" then Outcome(Failure(InvalidMessage), [], [])
    else
      match w.alreadyProcessed
      case Err(e) => Outcome(Failure(e), [CheckProcessed(m.id)], [])
      case Ok(done) =>
        if done then Outcome(Skipped, [CheckProcessed(m.id)], [])
        else HandleFresh(m, w, processor, default, saveRaises)
  }

  /** `_handle_message` with a save that never fails the message. */
  function MessageOutcome(m: Message, w: World, processor: string, default: string): Outcome {
    HandleWith(m, w, processor, default, None)
  }

  /** `_handle_message` with the save as written. */
  function MessageOutcomeAsWritten(m: Message, w: World, processor: string, default: string): (o: Outcome)
    ensures m.msgType != "" && w.alreadyProcessed == Ok(false) && w.outputDir.None? ==>
              o.response == Failure(UnboundOutputPath) && o.trace == [CheckProcessed(m.id), DownloadMedia(m.id)]
  {
    HandleWith(m, w, processor, default, SaveRaisesAsWritten(w.outputDir))
  }

  // ---- handle_webhook ----

  /** `webhook.entry[0].changes[0].value.messages[0]`, or the exception it raises. */
  function FirstMessage(wh: Webhook): (r: Result<Message>)
    ensures r.Ok? ==> wh.entry != [] && wh.entry[0].changes != []
  {
    if wh.entry == [] || wh.entry[0].changes == [] then Err(IndexOutOfRange)
    else
      match wh.entry[0].changes[0].value.messages
      case None => Err(NotSubscriptable)
      case Some(ms) => if ms == [] then Err(IndexOutOfRange) else Ok(ms[0])
  }

  /** `handle_webhook`: the kind of a webhook with entries is looked up first. */
  function WebhookOutcome(wh: Webhook, w: World, processor: string, default: string): Outcome {
    if wh.entry == [] then Outcome(Failure(InvalidWebhook), [], [])
    else
      match w.webhookType
      case Err(e) => Outcome(Failure(e), [CheckWebhookType], [])
      case Ok(kind) =>
        if kind == "message" then
          match FirstMessage(wh)
          case Err(e) => Outcome(Failure(e), [CheckWebhookType], [])
          case Ok(m) =>
            var o := MessageOutcome(m, w, processor, default);
            o.(trace := [CheckWebhookType] + o.trace)
        else Outcome(Processed(kind), [CheckWebhookType], [])
  }

  class WhatsAppService {
    const ocrTools: OCRTools
    const llmTools: LLMTools
    /** The calls made so far. */
    var calls: seq<Call>

    constructor()
      ensures fresh(ocrTools) && fresh(llmTools)
      ensures ocrTools.processor == "pytesseract" && ocrTools.written == []
      ensures llmTools.defaultProvider == "openai"
      ensures calls == []
    {
      ocrTools := new OCRTools();
      llmTools := new LLMTools("openai");
      calls := [];
      assert LowerStr("openai") == "openai";
    }

    /** `_extract_text_from_message`. */
    method ExtractTextFromMessage(m: Message, w: Media) returns (text: string)
      modifies this, ocrTools
      ensures text == ExtractedText(m, w, old(ocrTools.processor), llmTools.defaultProvider)
      ensures ocrTools.processor == old(ocrTools.processor)
      ensures ocrTools.written == old(ocrTools.written) + OcrSaved(m, w, ocrTools.processor)
      ensures calls == old(calls) + [DownloadMedia(m.id)]
    {
      calls := calls + [DownloadMedia(m.id)];
      if w.download.Err? {
        return "";
      }
      var path := w.download.value;
      if m.msgType == "text" {
        // `message.text.body` raises when the message has no text part.
        text := if m.textBody.Some? then m.textBody.value else "";
      } else if m.msgType == "image" {
        var read := w.tesseract(path);
        if ocrTools.processor == "pytesseract" && read.Err? {
          return "";
        }
        var out := ocrTools.ExtractTextFromImage(path, if read.Ok? then read.value else "", w.ocrTextDir,
                                                 w.ocrSaveError);
        text := if out.Ok? then out.value else "";
      } else if m.msgType == "audio" {
        var answer, _ := llmTools.GetTextFromAudio(w.audioOpenai(path), w.audioGroq(path));
        TranscriptionText(llmTools.defaultProvider, w.audioOpenai(path), w.audioGroq(path));
        // `["text"]` raises `KeyError` on the error map.
        var t := Get(answer.fields, "text");
        text := if t.Some? && t.value.JStr? then t.value.s else "";
      } else {
        text := "";
      }
    }

    /** `_get_text_info`: the structured information as JSON text, printable ASCII throughout. */
    method GetTextInfo(text: string, w: World) returns (info: string)
      ensures info == InfoText(text, w, llmTools.defaultProvider)
      ensures AsciiText(info)
    {
      var j, _ := llmTools.GetTextInfo(w.infoOpenai(text), w.infoGroq(text), w.now);
      info := Dumps(j);
      DumpsAscii(j);
    }

    /** `_save_output_json`, with every failure logged and swallowed. */
    method SaveOutputJson(info: string, messageId: string, w: World)
      modifies this
      ensures calls == old(calls) + SaveCalls(info, messageId, w.outputDir, w.writeOk)
    {
      if w.outputDir.Some? && w.writeOk {
        calls := calls + [WriteJson(PathJoin(w.outputDir.value, messageId + ".json"), info)];
      }
    }

    /** `_handle_message`. */
    method HandleMessage(m: Message, w: World) returns (resp: Response)
      modifies this, ocrTools
      ensures var o := MessageOutcome(m, w, old(ocrTools.processor), llmTools.defaultProvider);
        resp == o.response && calls == old(calls) + o.trace && ocrTools.written == old(ocrTools.written) + o.ocrSaved
      ensures ocrTools.processor == old(ocrTools.processor)
    {
      ghost var processor, default := ocrTools.processor, llmTools.defaultProvider;
      ghost var calls0, written0 := calls, ocrTools.written;
      if m.msgType == "" {
        return Failure(InvalidMessage);
      }
      calls := calls + [CheckProcessed(m.id)];
      if w.alreadyProcessed.Err? {
        return Failure(w.alreadyProcessed.error);
      }
      if w.alreadyProcessed.value {
        return Skipped;
      }
      var text := ExtractTextFromMessage(m, w.media);
      assert ocrTools.written == written0 + OcrSaved(m, w.media, processor);
      var info := GetTextInfo(text, w);
      SaveOutputJson(info, m.id, w);
      calls := calls + [PrepareReply(m.from_, info)];
      ghost var prepared := [CheckProcessed(m.id), DownloadMedia(m.id)] + SaveCalls(info, m.id, w.outputDir, w.writeOk)
        + [PrepareReply(m.from_, info)];
      TraceAppend(calls0, CheckProcessed(m.id), DownloadMedia(m.id), SaveCalls(info, m.id, w.outputDir, w.writeOk),
        PrepareReply(m.from_, info));
      FreshSteps(m, w, processor, default, text, info);
      if w.dataToSend.Err? {
        return Failure(w.dataToSend.error);
      }
      calls := calls + [SendReply(w.dataToSend.value)];
      assert calls == calls0 + (prepared + [SendReply(w.dataToSend.value)]);
      if w.sendError.Some? {
        return Failure(w.sendError.value);
      }
      resp := Success(info);
    }

    /** `handle_webhook`. */
    method HandleWebhook(wh: Webhook, w: World) returns (resp: Response)
      modifies this, ocrTools
      ensures var o := WebhookOutcome(wh, w, old(ocrTools.processor), llmTools.defaultProvider);
        resp == o.response && calls == old(calls) + o.trace && ocrTools.written == old(ocrTools.written) + o.ocrSaved
      ensures ocrTools.processor == old(ocrTools.processor)
    {
      if wh.entry == [] {
        return Failure(InvalidWebhook);
      }
      calls := calls + [CheckWebhookType];
      if w.webhookType.Err? {
        return Failure(w.webhookType.error);
      }
      var kind := w.webhookType.value;
      if kind == "message" {
        var first := FirstMessage(wh);
        if first.Err? {
          return Failure(first.error);
        }
        ghost var calls1 := calls;
        resp := HandleMessage(first.value, w);
        ghost var o := MessageOutcome(first.value, w, old(ocrTools.processor), llmTools.defaultProvider);
        assert calls == calls1 + o.trace;
        AppendAssoc(old(calls), CheckWebhookType, o.trace);
      } else {
        resp := Processed(kind);
      }
    }
  }

  lemma AppendAssoc(calls: seq<Call>, c: Call, t: seq<Call>)
    ensures calls + [c] + t == calls + ([c] + t)
  {
  }

  /** Calls appended one by one, as one block. */
  lemma TraceAppend(calls: seq<Call>, a: Call, b: Call, saved: seq<Call>, c: Call)
    ensures calls + [a] + [b] + saved + [c] == calls + ([a, b] + saved + [c])
  {
    assert [a] + [b] == [a, b];
  }

  /** The outcome of a fresh message, in terms of its text and its structured information. */
  lemma FreshSteps(m: Message, w: World, processor: string, default: string, text: string, info: string)
    requires text == ExtractedText(m, w.media, processor, default) && info == InfoText(text, w, default)
    ensures var o := HandleFresh(m, w, processor, default, None);
      var prepared := [CheckProcessed(m.id), DownloadMedia(m.id)] + SaveCalls(info, m.id, w.outputDir, w.writeOk)
        + [PrepareReply(m.from_, info)];
      o.ocrSaved == OcrSaved(m, w.media, processor)
      && (w.dataToSend.Err? ==> o.response == Failure(w.dataToSend.error) && o.trace == prepared)
      && (w.dataToSend.Ok? ==>
            o.trace == prepared + [SendReply(w.dataToSend.value)]
            && o.response == if w.sendError.Some? then Failure(w.sendError.value) else Success(info))
  {
  }

  // ---- Properties ----

  /** Every answer is 200 or 500, and it is 200 exactly when the message had a type, the
      already-processed check answered, and the message was either skipped or fully handled
      up to a reply that went out. */
  lemma MessageStatus(m: Message, w: World, processor: string, default: string)
    ensures var s := MessageOutcome(m, w, processor, default).response.status;
      (s == 200 || s == 500)
      && (s == 200 <==>
            m.msgType != "" && w.alreadyProcessed.Ok?
            && (w.alreadyProcessed.value || (w.dataToSend.Ok? && w.sendError.None?)))
  {
  }

  /** A message already processed is answered at once: nothing is downloaded, read, saved or
      sent. */
  lemma SkippedDoesNothing(m: Message, w: World, processor: string, default: string)
    requires m.msgType != "" && w.alreadyProcessed == Ok(true)
    ensures MessageOutcome(m, w, processor, default) == Outcome(Skipped, [CheckProcessed(m.id)], [])
  {
  }

  /** A handled message: the text stored, prepared and answered is one and the same printable
      ASCII JSON text, and the calls come in the order check, download, save, prepare, send. */
  lemma HandledMessage(m: Message, w: World, processor: string, default: string)
    requires MessageOutcome(m, w, processor, default).response.status == 200
    requires w.alreadyProcessed == Ok(false)
    ensures var o := MessageOutcome(m, w, processor, default);
      var info := InfoText(ExtractedText(m, w.media, processor, default), w, default);
      o.response == Success(info) && AsciiText(info)
      && o.trace == [CheckProcessed(m.id), DownloadMedia(m.id)] + SaveCalls(info, m.id, w.outputDir, w.writeOk)
                    + [PrepareReply(m.from_, info), SendReply(w.dataToSend.value)]
  {
    var text := ExtractedText(m, w.media, processor, default);
    var info := InfoText(text, w, default);
    DumpsAscii(TextInfo(default, w.infoOpenai(text), w.infoGroq(text), w.now));
    FreshSteps(m, w, processor, default, text, info);
  }

  /** Whatever a handled message writes to a file is the information it answers with. */
  lemma HandledWrites(m: Message, w: World, processor: string, default: string)
    requires MessageOutcome(m, w, processor, default).response.status == 200
    requires w.alreadyProcessed == Ok(false)
    ensures var o := MessageOutcome(m, w, processor, default);
      forall k :: 0 <= k < |o.trace| && o.trace[k].WriteJson? ==> Success(o.trace[k].content) == o.response
  {
    HandledMessage(m, w, processor, default);
    var info := InfoText(ExtractedText(m, w.media, processor, default), w, default);
    WritesCarry([CheckProcessed(m.id), DownloadMedia(m.id)], SaveCalls(info, m.id, w.outputDir, w.writeOk),
      [PrepareReply(m.from_, info), SendReply(w.dataToSend.value)], info);
  }

  /** Only the saved calls write, and each writes `info`. */
  lemma WritesCarry(pre: seq<Call>, saved: seq<Call>, post: seq<Call>, info: string)
    requires forall k :: 0 <= k < |pre| ==> !pre[k].WriteJson?
    requires forall k :: 0 <= k < |post| ==> !post[k].WriteJson?
    requires forall k :: 0 <= k < |saved| && saved[k].WriteJson? ==> saved[k].content == info
    ensures var t := pre + saved + post;
      forall k :: 0 <= k < |t| && t[k].WriteJson? ==> t[k].content == info
  {
    var t := pre + saved + post;
    forall k | 0 <= k < |t|
      ensures t[k].WriteJson? ==> t[k].content == info
    {
      if k < |pre| {
        assert t[k] == pre[k];
      } else if k < |pre| + |saved| {
        assert t[k] == saved[k - |pre|];
      } else {
        assert t[k] == post[k - |pre| - |saved|];
      }
    }
  }

  /** The calls of a trace other than file writes, in order. */
  function Unsaved(t: seq<Call>): (r: seq<Call>)
    ensures |r| <= |t|
    ensures forall k :: 0 <= k < |r| ==> !r[k].WriteJson? && r[k] in t
    ensures (forall k :: 0 <= k < |t| ==> !t[k].WriteJson?) ==> r == t
  {
    if t == [] then [] else (if t[0].WriteJson? then [] else [t[0]]) + Unsaved(t[1..])
  }

  lemma {:induction false} UnsavedConcat(a: seq<Call>, b: seq<Call>)
    ensures Unsaved(a + b) == Unsaved(a) + Unsaved(b)
    decreases |a|
  {
    if a == [] {
      assert a + b == b;
    } else {
      UnsavedConcat(a[1..], b);
      assert Unsaved(a + b) == (if a[0].WriteJson? then [] else [a[0]]) + Unsaved(a[1..] + b) by {
        TailConcat(a, b);
      }
      PrefixJoin(if a[0].WriteJson? then [] else [a[0]], Unsaved(a[1..] + b), Unsaved(a[1..]), Unsaved(b),
        Unsaved(a + b), Unsaved(a));
    }
  }

  /** Two traces that differ only in the writes between `pre` and `post` make the same other
      calls. */
  lemma UnsavedAround(pre: seq<Call>, saved: seq<Call>, saved': seq<Call>, post: seq<Call>)
    requires Unsaved(saved) == [] && Unsaved(saved') == []
    ensures Unsaved(pre + saved + post) == Unsaved(pre + saved' + post)
  {
    UnsavedConcat(pre, saved);
    UnsavedConcat(pre, saved');
    UnsavedConcat(pre + saved, post);
    UnsavedConcat(pre + saved', post);
  }

  /** Whether the output file could be written has no effect on the answer, on the OCR text
      saved, or on any call other than the write itself: the reply is prepared and sent with
      the same text either way. */
  lemma SaveDoesNotMatter(m: Message, w: World, processor: string, default: string, dir: Option<string>, ok: bool)
    ensures var o := MessageOutcome(m, w, processor, default);
      var o' := MessageOutcome(m, w.(outputDir := dir, writeOk := ok), processor, default);
      o'.response == o.response && o'.ocrSaved == o.ocrSaved && Unsaved(o'.trace) == Unsaved(o.trace)
  {
    var w' := w.(outputDir := dir, writeOk := ok);
    if m.msgType != "" && w.alreadyProcessed == Ok(false) {
      var text := ExtractedText(m, w.media, processor, default);
      var info := InfoText(text, w, default);
      assert info == InfoText(text, w', default);
      FreshSteps(m, w, processor, default, text, info);
      FreshSteps(m, w', processor, default, text, info);
      var pre := [CheckProcessed(m.id), DownloadMedia(m.id)];
      var saved, saved' := SaveCalls(info, m.id, w.outputDir, w.writeOk), SaveCalls(info, m.id, dir, ok);
      var post := [PrepareReply(m.from_, info)]
                  + if w.dataToSend.Ok? then [SendReply(w.dataToSend.value)] else [];
      assert MessageOutcome(m, w, processor, default).trace == pre + saved + post;
      assert MessageOutcome(m, w', processor, default).trace == pre + saved' + post;
      UnsavedAround(pre, saved, saved', post);
    }
  }

  /** As written, a message not processed before fails with 500 whenever the output directory
      is not configured, before any reply is prepared. */
  lemma SaveAsWrittenFails(m: Message, w: World, processor: string, default: string)
    requires m.msgType != "" && w.alreadyProcessed == Ok(false) && w.outputDir.None?
    requires w.dataToSend.Ok? && w.sendError.None?
    ensures MessageOutcomeAsWritten(m, w, processor, default).response == Failure(UnboundOutputPath)
    ensures MessageOutcomeAsWritten(m, w, processor, default).trace == [CheckProcessed(m.id), DownloadMedia(m.id)]
    ensures MessageOutcome(m, w, processor, default).response.status == 200
  {
  }

  /** A configured output directory: the save as written and the corrected save agree. */
  lemma SaveAsWrittenAgrees(m: Message, w: World, processor: string, default: string)
    requires w.outputDir.Some?
    ensures MessageOutcomeAsWritten(m, w, processor, default) == MessageOutcome(m, w, processor, default)
  {
  }

  /** The text of an image message is OCR output as the cleaning step leaves it: cleaning it
      again changes nothing. */
  lemma ImageTextClean(m: Message, w: World, processor: string, default: string)
    requires m.msgType == "image"
    ensures Clean(ExtractedText(m, w.media, processor, default)) == ExtractedText(m, w.media, processor, default)
  {
    if w.media.download.Ok? && processor == "pytesseract" && w.media.tesseract(w.media.download.value).Ok?
       && w.media.ocrSaveError.None? {
      CleanIdempotent(w.media.tesseract(w.media.download.value).value);
    } else {
      CleanIdempotent("");
    }
  }

  /** The first message `handle_webhook` takes is the one `get_message_type` classifies. */
  lemma FirstMessageType(wh: Webhook)
    requires FirstMessage(wh).Ok?
    ensures MessageType(wh) == Some(FirstMessage(wh).value.msgType)
  {
  }

  /** `handle_webhook` looks only at the first change of the first entry: a webhook whose
      message comes in the second change has a message type, yet fails. */
  lemma LaterMessageMissed()
    ensures var m := Message("5511", "wamid.1", "0", "text", Some("hi"));
      var wh := Webhook("whatsapp_business_account", [Entry("e", [
        Change(Value(None, Some([])), "messages"),
        Change(Value(Some([m]), None), "messages")])]);
      MessageType(wh) == Some("text") && FirstMessage(wh) == Err(NotSubscriptable)
  {
    var m := Message("5511", "wamid.1", "0", "text", Some("hi"));
    var c1 := Change(Value(Some([m]), None), "messages");
    var cs := [Change(Value(None, Some([])), "messages"), c1];
    assert FirstTypeInChanges(cs[1..]) == Some("text") by {
      assert cs[1..] == [c1];
    }
  }

  /** A webhook that is not about a message is acknowledged with its kind and nothing else. */
  lemma OtherWebhook(wh: Webhook, w: World, processor: string, default: string)
    requires wh.entry != [] && w.webhookType.Ok? && w.webhookType.value != "message"
    ensures WebhookOutcome(wh, w, processor, default) == Outcome(Processed(w.webhookType.value), [CheckWebhookType], [])
    ensures Processed(w.webhookType.value).content
      == Envelope("ok", "Processed " + w.webhookType.value + " webhook")
  {
  }
}
