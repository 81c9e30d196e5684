# loris — a Dafny model of the WhatsApp receipt pipeline

loris receives WhatsApp Business webhooks. For each message it:

- extracts a text, taken from the message body, from Tesseract OCR of an image, or from a
  transcription of an audio clip;
- asks a language model (OpenAI first, Groq as fallback, or the other way round) for the
  purchase data in that text;
- saves the result as JSON;
- replies to the sender.

This project models the deterministic logic inside that glue and proves what it guarantees.

- **OCR cleanup** (`OCRTools.__process_ocr_output`), in modules `OcrTools` and `OcrLabels`.
  - It is modelled as a chain of explicit functions on `seq<char>`:
    1. drop non-printable characters;
    2. squeeze runs of spaces, then runs of newlines;
    3. strip each line;
    4. four case-insensitive label rewrites with leftmost, non-overlapping, greedy matching;
    5. drop short lines;
    6. strip the whole text.
  - The main results:
    - the output is printable, has no double spaces or empty lines, is stripped, and every line is longer than two characters;
    - every label in it is canonical, except that a label at the very end loses its trailing space to the final strip;
    - the four label passes equal one simultaneous pass;
    - the whole cleanup is idempotent.
- **Provider fallback** (`LLMTools.get_text_info`, `get_text_from_audio`), in module `LlmTools`.
  - Each method's loop is proved against a recursive `Fallback`: the first success wins, and otherwise the answer carries the last failure.
  - The provider list, the unknown-provider case and the `"Unknown"` date placeholder are proved as lemmas.
- **Webhook helpers** (`fix_keys`, `get_message_type`), in module `Helpers`.
  - JSON dicts keep the insertion order of Python dicts.
  - Proved for `fix_keys`: no `from` key is left at any depth; idempotence; shape preservation; key count, including the `from`/`from_` collision.
  - Proved for `get_message_type`: it returns the first message type in entry-then-change order.
- **Legacy OCR rewrite** (`cv_tools.process_ocr_output`), in module `CvTools`: three chained `str.replace` calls.
- **Webhook handshake** (`verify`), in module `WhatsAppRouter`.
- **Graph API client setup** (`WhatsAppTools.__init__`, `is_image_already_processed`), in module `WhatsAppTools`.
- **Message handling** (`WhatsAppService`), in module `WhatsAppService`.
  - The service's collaborators are answers in a `World` value:
    - the Graph API helpers;
    - Tesseract;
    - the language models;
    - the clock;
    - the settings;
    - the file system.
  - The service records what it does to the outside world as an ordered trace of calls.
  - `json.dumps` (module `JsonText`) is modelled so that the stored and sent text can be shown to be printable ASCII.

Supporting modules: `Wrappers` (`Option`, `Result`, Python truthiness of an optional string) and
`PyStr` (the Python string operations used: `strip`, `splitlines`, `join`, `replace`,
`os.path.basename`, `os.path.join`).

## Model

| member | source | states |
|---|---|---|
| OcrTools.DropNonPrintable | app/tools/transformer_tools.py:23 | the result holds only printable ASCII and newlines, draws every character from the input, and leaves a text of such characters unchanged |
| OcrTools.DropNonPrintableCounts | app/tools/transformer_tools.py:23 | every printable ASCII character and newline is kept as often as it occurs, and every other character is dropped |
| OcrTools.DropNonPrintableConcat | app/tools/transformer_tools.py:23 | the filter works character by character, in order: filtering two texts joined is joining the two filtered texts |
| OcrTools.DropNonPrintableSingle | app/tools/transformer_tools.py:23 | a single character is kept exactly when it is printable ASCII or a newline |
| OcrTools.Squeeze | app/tools/transformer_tools.py:25-27 | the result has no run of the squeezed character, keeps the first character, creates no run of any other character, and leaves run-free text unchanged |
| OcrTools.SqueezeCounts | app/tools/transformer_tools.py:25-27 | every other character is kept as often as it occurs, and the squeezed character occurs once per run of it |
| OcrTools.SqueezeKeepsChar | app/tools/transformer_tools.py:25-27 | the squeezed character occurs in the result exactly when it occurs in the input |
| OcrTools.SqueezeConcat | app/tools/transformer_tools.py:25-27 | squeezing works in order, separately on the two sides of a boundary that is not inside a run |
| OcrTools.StripEachStripped | app/tools/transformer_tools.py:29 | every line afterwards is empty or starts and ends with non-whitespace, and stripping the lines again changes nothing |
| OcrTools.LongLines | app/tools/transformer_tools.py:36 | only lines longer than two characters are kept, each one taken from the input; when every line is long, all are kept |
| OcrTools.LongLinesKeeps | app/tools/transformer_tools.py:36 | every line longer than two characters is kept |
| OcrTools.LongLinesConcat | app/tools/transformer_tools.py:36 | the filter works line by line, in order: filtering two lists joined is joining the two filtered lists |
| OcrTools.LongLinesSingle | app/tools/transformer_tools.py:36 | a single line is kept exactly when it is longer than two characters |
| OcrLabels.LabelPassesAreOnePass | app/tools/transformer_tools.py:31-34 | the four label passes, in the source's order, equal one leftmost, greedy pass over all four labels |
| OcrLabels.RewriteIdempotent | app/tools/transformer_tools.py:31-34 | a second label pass changes nothing |
| OcrLabels.RewriteCanonical | app/tools/transformer_tools.py:31-34 | after a pass, every case-insensitive label followed by `:`/space is spelled `Valor: ` (and so on) with no further separator after it |
| OcrLabels.FixedIffCanonical | app/tools/transformer_tools.py:31-34 | a pass leaves a text unchanged if and only if all its labels are already canonical |
| OcrLabels.CanonicalFixed | app/tools/transformer_tools.py:31-34 | a pass leaves a text whose labels are canonical unchanged |
| OcrLabels.RewriteChars | app/tools/transformer_tools.py:31-34 | a pass only copies input characters or inserts printable label text |
| OcrLabels.RewriteNoRun | app/tools/transformer_tools.py:25-34 | a pass creates no double space, since a label swallows its whole separator run |
| OcrLabels.RewriteJoin | app/tools/transformer_tools.py:29-34 | on newline-joined lines a pass works line by line, since no match crosses a newline |
| OcrLabels.RewriteConcat | app/tools/transformer_tools.py:31-34 | a pass works separately on the two sides of a label-with-colon boundary |
| OcrLabels.ColonRewrite | app/tools/transformer_tools.py:31-37 | a pass turns a label stripped to `Valor:` back into `Valor: ` |
| OcrLabels.RestoreLabel | app/tools/transformer_tools.py:31-37 | when a text ending in a canonical label is fixed by a pass, the same text ending in the stripped label is rewritten back to it |
| OcrTools.CleanOutput | app/tools/transformer_tools.py:21-37 | `OcrTools.Clean`, the whole cleanup: its output holds only printable ASCII and newlines, has no double space and no empty line, starts and ends with non-whitespace, and every line is longer than two characters |
| OcrTools.CleanLabels | app/tools/transformer_tools.py:31-37 | every label in the output is canonical, except that one at the very end has lost its trailing space to the final strip |
| OcrTools.CleanIdempotent | app/tools/transformer_tools.py:21-37 | cleaning a cleaned text returns it unchanged |
| OcrTools.OcrTextPathOfImage | app/tools/transformer_tools.py:45-46 | the OCR text of the downloaded image `<dir>/<id>.jpeg` goes to `<id>.txt` in the OCR text directory |
| OcrTools.OCRTools.constructor | app/tools/transformer_tools.py:18-19 | the processor is stored as given (default `pytesseract`), and no file has been written |
| OcrTools.OCRTools.ProcessOcrOutput | app/tools/transformer_tools.py:21-37 | forwards to `OcrTools.Clean`; what its output looks like is stated by `OcrTools.CleanOutput`, `OcrTools.CleanLabels` and `OcrTools.CleanIdempotent` |
| OcrTools.OCRTools.ExtractTextFromImage | app/tools/transformer_tools.py:39-65 | with `pytesseract`, returns the cleaned text and appends exactly that text, under its derived path, to the files written; when saving the text raises, that exception comes out and nothing is recorded; any other processor fails with `Unsupported OCR processor: <name>` and writes nothing |
| LlmTools.LowerStrLower | app/tools/transformer_tools.py:70 | the stored provider name holds no ASCII capital, lower-casing it again changes nothing, and a name without capitals is kept as given |
| LlmTools.ProviderListShape | app/tools/transformer_tools.py:92 | two distinct providers, the configured one first, `groq` second exactly when the first is `openai`, and `openai` always present |
| LlmTools.AttemptOk | app/tools/transformer_tools.py:79-85 | only `openai` and `groq` can succeed, and then with their own client's answer |
| LlmTools.Tried | app/tools/transformer_tools.py:94-115 | the number of attempts is at least one and at most the number of providers |
| LlmTools.FallbackSpec | app/tools/transformer_tools.py:94-120 | every attempt before the last one made failed, the answer is the last attempt's outcome, and a failed answer means every provider was tried |
| LlmTools.SuccessIndex | app/tools/transformer_tools.py:94-112 | the first success at position i is the answer, after exactly i + 1 attempts |
| LlmTools.AllFailed | app/tools/transformer_tools.py:113-120 | when every attempt fails, all are tried and the answer is the last failure |
| LlmTools.UnknownDefault | app/tools/transformer_tools.py:79-92 | with an unknown configured provider the first attempt fails, and the answer is OpenAI's after two attempts |
| LlmTools.FixDateFills | app/tools/transformer_tools.py:107-109 | after the fix the date is `Unknown` only if `now` is; a purchase with a real date is returned unchanged; fixing twice is fixing once |
| LlmTools.FixDateKeepsDefault | app/tools/transformer_tools.py:107-109 | the schema default `Unknown Date` passes through unchanged |
| LlmTools.TranscriptionText | app/tools/transformer_tools.py:129-163 | the transcription answer has a `text` entry exactly when some provider succeeded, and then it holds that transcript |
| LlmTools.LLMTools.constructor | app/tools/transformer_tools.py:69-70 | the default provider is stored lower-cased |
| LlmTools.LLMTools.GetTextInfo | app/tools/transformer_tools.py:87-120 | the loop returns the first parsed purchase with its date placeholder filled in, or the error map with the last failure, having called exactly the providers up to the first success |
| LlmTools.LLMTools.GetTextFromAudio | app/tools/transformer_tools.py:122-163 | the loop returns `{"text": ...}` from the first successful transcription, or the error map with the last failure, having called exactly the providers up to the first success |
| CvTools.ProcessOcrOutputMarks | app/tools/cv_tools.py:6-7 | the output never contains `RG`, and every `$` in it follows an `R` |
| CvTools.ProcessOcrOutputLength | app/tools/cv_tools.py:6-7 | the output is no longer than the input, and an input without `",  "`, `$` and `RG` is returned unchanged |
| CvTools.ProcessOcrOutputNotIdempotent | app/tools/cv_tools.py:6-7 | `",$  "` becomes `",  "`, which becomes `"."`, so the rewrite is not idempotent |
| CvTools.ProcessOcrOutputDropsDollar | app/tools/cv_tools.py:6-7 | an `R$` already present loses its `$` |
| CvTools.ProcessOcrOutputFixesRG | app/tools/cv_tools.py:6-7 | `RG` is rewritten to `R$` |
| Helpers.FixKeysFixed | app/helpers.py:12-17 | `fix_keys` output has no key `from` at any depth |
| Helpers.FixedUnchanged | app/helpers.py:12-17 | a document already without `from` keys (and with distinct keys) is returned unchanged |
| Helpers.FixKeysIdempotent | app/helpers.py:12-17 | `fix_keys(fix_keys(x)) == fix_keys(x)` |
| Helpers.FixKeysShape | app/helpers.py:15-17 | scalars are unchanged; a list keeps its length and order, each element rewritten; a dict stays a dict |
| Helpers.FixKeysKeys | app/helpers.py:14 | a dict's keys afterwards are its keys with `from` renamed to `from_` |
| Helpers.FixKeysGet | app/helpers.py:14 | under each key lies the rewritten value of the last entry whose key renames to it |
| Helpers.FixKeysNoCollision | app/helpers.py:14 | without both `from` and `from_`, every entry keeps its position, renamed key and rewritten value |
| Helpers.FixKeysSize | app/helpers.py:14 | the key count is preserved, except that holding both `from` and `from_` loses one entry |
| Helpers.FromPairsGet | app/helpers.py:14 | a dict comprehension keeps, for each key, the value of its last occurrence |
| Helpers.GetMessageType | app/helpers.py:5-10 | the nested loops return the message type of the first change with messages |
| Helpers.MessageTypeSpec | app/helpers.py:5-10 | the answer is None exactly when no change has messages; otherwise it is `messages[0].type` of the first such change in entry-then-change order |
| WhatsAppTools.CheckArgs | app/tools/whatsapp_tools.py:4-10 | construction succeeds exactly when token, phone number id and version are all present and non-empty, and a failure names one of the three |
| WhatsAppTools.CheckArgsFirstComplaint | app/tools/whatsapp_tools.py:4-10 | construction fails exactly when an argument is missing or empty, reporting the first in the order token, phone number id, version |
| WhatsAppTools.HeadersContent | app/tools/whatsapp_tools.py:11-18 | the header map holds exactly `Content-type: application/json` and `Authorization: Bearer <token>` |
| WhatsAppTools.MessagesUrlInjective | app/tools/whatsapp_tools.py:21-22 | for versions without `/`, the messages URL determines the version and the phone number id |
| WhatsAppTools.WhatsAppTools.constructor | app/tools/whatsapp_tools.py:11-22 | both header maps, the version, the phone number id, the base URL and the messages URL are set as the source builds them |
| WhatsAppTools.WhatsAppTools.Create | app/tools/whatsapp_tools.py:4-22 | the error of the first missing argument, or a fresh client with identical header maps, the arguments stored, and `base_url`/`url` built from them |
| WhatsAppTools.ImagePathInjective | app/tools/whatsapp_tools.py:24-25 | distinct ids have distinct image paths, and the path's file name is `<id>.jpeg` |
| WhatsAppTools.ImageProcessedAfterSave | app/tools/whatsapp_tools.py:24-25 | `WhatsAppTools.IsImageAlreadyProcessed`: saving the image of one id makes exactly that id count as processed besides those that already did, and removing it makes exactly that id stop counting |
| WhatsAppRouter.Verify | app/routes/whatsapp_router.py:14-29 | the answer is 200 exactly when it is the plain-text one, and that one echoes the challenge and required the secret token |
| WhatsAppRouter.VerifyAnswers | app/routes/whatsapp_router.py:14-29 | 400 exactly when mode or token is missing or empty; 200 with the challenge exactly when the mode is `subscribe` and the token is the secret; 403 otherwise |
| WhatsAppRouter.VerifyIgnoresChallenge | app/routes/whatsapp_router.py:20-26 | the status never depends on the challenge |
| JsonText.DumpsAscii | app/service/whatsapp_service.py:56-57 | `json.dumps` output is printable ASCII throughout |
| WhatsAppService.WhatsAppService.constructor | app/service/whatsapp_service.py:15-19 | fresh OCR and LLM tools, with processor `pytesseract` and provider `openai`, and no calls yet |
| WhatsAppService.WhatsAppService.ExtractTextFromMessage | app/service/whatsapp_service.py:21-46 | downloads first for every type; then the text body, the cleaned OCR text, the transcript, or `""`, with `""` on any failure, a failed OCR text save included; records the OCR file written |
| WhatsAppService.WhatsAppService.GetTextInfo | app/service/whatsapp_service.py:48-64 | the structured information as `json.dumps` text, which is printable ASCII |
| WhatsAppService.WhatsAppService.SaveOutputJson | app/service/whatsapp_service.py:66-76 | corrected save (as written: `WhatsAppService.MessageOutcomeAsWritten`): writes `<message id>.json` in the output directory when it can, and otherwise records nothing and lets nothing out |
| WhatsAppService.WhatsAppService.HandleMessage | app/service/whatsapp_service.py:78-124 | corrected save (as written: `WhatsAppService.MessageOutcomeAsWritten`): the response, the calls made and the OCR files written are those of the message outcome |
| WhatsAppService.WhatsAppService.HandleWebhook | app/service/whatsapp_service.py:126-152 | corrected save (as written: `WhatsAppService.MessageOutcomeAsWritten`): the response, calls and files written are those of the webhook outcome, which looks up the webhook kind before anything else once the webhook has entries |
| WhatsAppService.FirstMessage | app/service/whatsapp_service.py:139 | a message is found only when the first entry has a first change |
| WhatsAppService.MessageStatus | app/service/whatsapp_service.py:78-124 | every answer is 200 or 500, and it is 200 exactly when the message has a type, the processed check answered, and the message was skipped or its reply went out |
| WhatsAppService.SkippedDoesNothing | app/service/whatsapp_service.py:87-93 | an already processed message gets the `skipped` envelope after the check alone |
| WhatsAppService.HandledMessage | app/service/whatsapp_service.py:95-117 | a handled message answers `success` with the printable JSON information, after the calls check, download, save, prepare and send, in that order |
| WhatsAppService.HandledWrites | app/service/whatsapp_service.py:102-117 | whatever a handled message writes to a file is the information it answers with |
| WhatsAppService.SaveDoesNotMatter | app/service/whatsapp_service.py:66-106 | corrected save: whether the output file can be written changes neither the answer, nor the OCR files saved, nor any call other than the write, so the reply is prepared and sent alike |
| WhatsAppService.SaveAsWrittenFails | app/service/whatsapp_service.py:66-106 | as written, a fresh message fails with the unbound-`output_path` error when the output directory is not configured, before any reply is prepared |
| WhatsAppService.MessageOutcomeAsWritten | app/service/whatsapp_service.py:66-106 | `_handle_message` with the save as written: a fresh message with no output directory fails with the unbound-`output_path` error after the check and the download alone |
| WhatsAppService.SaveAsWrittenAgrees | app/service/whatsapp_service.py:66-76 | with a configured output directory, the save as written and the corrected save agree |
| WhatsAppService.ImageTextClean | app/service/whatsapp_service.py:35-37 | the text of an image message is unchanged by a further cleanup |
| WhatsAppService.FirstMessageType | app/service/whatsapp_service.py:139 | the message `handle_webhook` takes has the type `get_message_type` reports |
| WhatsAppService.LaterMessageMissed | app/service/whatsapp_service.py:139 | a webhook whose message sits in its second change has a message type, yet `handle_webhook` fails on it |
| WhatsAppService.OtherWebhook | app/service/whatsapp_service.py:135-146 | a non-message webhook is acknowledged with `Processed <kind> webhook` after the kind lookup, and nothing else happens |

## Left out

- Tesseract, the LangChain, OpenAI and Groq clients, the prompt and the Pydantic parser are foreign calls. Their outcomes are parameters. The wall clock is a parameter too.
- Logging, directory creation and the file writes themselves are left out. Only the derived paths, the texts written and whether a write failed are recorded.
- The float `amount` of `PurchaseInfo` is not modelled. `Purchase` keeps the string fields only.
- `_get_client` is folded into `LlmTools.Attempt`. Constructing a client never fails on its own in the model.
- The Graph API helpers the service calls but `app/tools/whatsapp_tools.py` does not define are answers of the `World` oracle, not invented bodies. These are `is_message_already_processed`, `download_and_save_whatsapp_media_to_local_fs`, `check_webhook_type`, `get_data_to_send` and `send_message`.
- The settings lack the OCR, LLM and JSON-output keys. These become parameters, or the `Option` fields `World.outputDir` and `Media.ocrSaveError`; the latter is the exception the OCR text save raises, for the missing setting or for a directory or file that cannot be opened.
- `WhatsAppService.__init__` calls `WhatsAppTools()` with no arguments, which raises `TypeError`. The model's constructor leaves the Graph API tools out, since the service reaches them only through the oracle.
- `handle_wpp_message` in the router is not modelled. It builds the service with keyword arguments its constructor does not accept, returns the handler's coroutine without awaiting it, and prints.
- The async wrapper of `handle_webhook` is not modelled. The model handles one webhook to completion.
- `is_image_already_processed` is declared without `self`. `WhatsAppTools.IsImageAlreadyProcessed` models its evident meaning, taking the `../data/*` listing as a set.
- `extract_text_with_ocr` in `app/tools/cv_tools.py` is only a Tesseract call around `process_ocr_output`.
- WhatsAppService.InfoText: `_get_text_info` converts a non-dict, non-string answer with `str`. The model leaves that branch out because `get_text_info` always returns a dict.
- LlmTools.LowerStr: lower-cases ASCII letters only. Python's `str.lower` also folds non-ASCII letters, but a provider name is one of the known names or fails in either case.
- `splitlines` is modelled as splitting on `\n` only. After the first step no other line break is left.
- `re` patterns are modelled as explicit character-wise functions, not as a general regular-expression engine.
- WhatsAppTools.WhatsAppTools.constructor: takes present, non-empty arguments. `WhatsAppTools.WhatsAppTools.Create` models the checks.
- The check-then-write race on "already processed" is a concurrency matter and is not modelled.
- `json.dumps` is modelled for the JSON values the service produces: strings, `null`, lists and dicts. Floats are not modelled.

## Findings

| source | as written | input that shows it | evidently intended | confidence | as-written member | corrected member |
|---|---|---|---|---|---|---|
| app/service/whatsapp_service.py:66-76 | the `except` handler logs `output_path`, which is still unbound when the lookup of `settings.local_json_output_path` on line 71 raised; the resulting `UnboundLocalError` escapes, and `_handle_message` answers 500 without replying | any fresh message with settings that lack `local_json_output_path` (the shown `Settings` class lacks it) | a failed save is logged and swallowed, and the message is still answered | not executed | WhatsAppService.SaveAsWrittenFails | WhatsAppService.SaveDoesNotMatter |
