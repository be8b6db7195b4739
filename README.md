# AI Book: chat transcript and backend gateway, modelled in Dafny

AI Book is a client-side, Arabic-language study assistant. It generates exams,
explains lessons and writes projects, and it has a floating chat widget. The
generative backend does all the real work. This project models the two pieces
of the application's own logic that have behaviour worth stating:

- **The chat widget's state machine** (`ChatBot.tsx`), in modules `Transcript`
  and `ChatBot`. The widget state is the transcript, the input field, the
  loading flag and the one-shot "initialised" flag. It lives in the class
  `ChatBot.ChatWidget`, whose methods are the steps of `handleSend` and of the
  opening effect. The `setMessages` updaters (append a chunk, replace with the
  apology) and the `'\n'` → `<br />` rendering are pure functions in
  `Transcript`.
- **The gateway to the backend** (`gemini.ts`), in module `Gemini`, with every
  network call abstracted away. It covers:
  - extracting the payload from an uploaded file's data URL;
  - assembling the prompt and the content parts;
  - the parse-or-fixed-error wrapper around `JSON.parse`, with the parser
    supplied as an oracle;
  - building the image data URI;
  - the lazily created chat session, in class `Gemini.ChatGateway`;
  - forwarding the chat stream.

The data records come from `types.ts` (module `Types`). The JavaScript string
operations the core uses are in module `Strings`: `trim` with ECMAScript's
exact whitespace set, `split` on one character and global replace of one
character, plus `join`, which the lemmas use to characterise `split` and the
rendering.

How the modules connect: `ChatWidget.HandleSend` runs the whole send. It
first calls `BeginSend`. It then calls `ChatGateway.StreamChatResponse`,
which creates the session on first use, sends the prompt and forwards one
text per stream element. Each forwarded text goes through the chunk updater
(`ReceiveChunks`). If the stream fails, the error updater runs. Loading is
cleared last. The proved outcome:

- a refused send changes nothing, neither the widget nor the gateway;
- an accepted send keeps every earlier message;
- it appends the user's untrimmed input;
- it appends one bot reply, whose text is the chunks concatenated in order,
  or exactly the apology if the stream failed;
- it ends with loading cleared;
- the original input is sent once, as the newest message on the session.

`generateExam` casts whatever `JSON.parse` returns (`gemini.ts:64`) and
validates nothing, so the model returns whatever the parser oracle returns.

## Model

| member | source | states |
|---|---|---|
| `Strings.TrimStart` | ChatBot.tsx:39 | leading part of `trim`: the result is a suffix of the input, everything dropped is JS whitespace, and the result does not start with whitespace |
| `Strings.TrimEnd` | ChatBot.tsx:39 | trailing part of `trim`: the result is a prefix of the input, everything dropped is JS whitespace, and the result does not end with whitespace |
| `Strings.Trim` | gemini.ts:63 | `trim`: the result is a contiguous piece of the input with only whitespace before and after it, and it neither starts nor ends with whitespace |
| `Strings.TrimsToEmpty` | ChatBot.tsx:39 | `input.trim() === ''` holds exactly when every character is JS whitespace |
| `Strings.TrimEmptyIffBlank` | ChatBot.tsx:39 | `Trim(s)` is empty if and only if `s` is all whitespace (both directions) |
| `Strings.TrimIgnoresPadding` | gemini.ts:63 | whitespace before and after a text does not change what it trims to |
| `Strings.Split` | gemini.ts:10 | `split` on one character always yields at least one piece |
| `Strings.SplitPieces` | gemini.ts:10 | no piece contains the separator, and there is one more piece than there are separators |
| `Strings.SplitJoin` | gemini.ts:10 | joining the pieces with the separator gives back the original string |
| `Strings.JoinSplit` | gemini.ts:10 | splitting a join of separator-free pieces gives back those pieces |
| `Strings.ReplaceAll` | ChatBot.tsx:93 | global replace of one character: each occurrence changes the length by the replacement's length minus one; no occurrence survives a replacement without the character; a text without the character is unchanged |
| `Strings.ReplaceAllIsSplitJoin` | ChatBot.tsx:93 | a global replace of one character equals splitting at that character and joining with the replacement |
| `Transcript.AppendChunk` | ChatBot.tsx:51-57 | chunk updater: if the last message is a bot message, its text gains the chunk at the end and its sender stays the same; length and all earlier messages are unchanged; any other transcript is returned as it was |
| `Transcript.ApologizeLast` | ChatBot.tsx:62-69 | error updater: a trailing bot message's text becomes exactly the apology; length and earlier messages are unchanged; any other transcript is returned as it was |
| `Transcript.ApplyChunks` | ChatBot.tsx:50-59 | the chunk updaters run in order keep the transcript's length, every message but the last, and whether it ends with a bot message |
| `Transcript.ApplyChunksAccumulates` | ChatBot.tsx:46-59 | after chunks c1…cn reach a trailing bot message, its text is the old text followed by c1+…+cn; every earlier message and the length are unchanged |
| `Transcript.ApplyChunksIgnored` | ChatBot.tsx:51-57 | chunks arriving when the transcript is empty or ends with a user message change nothing |
| `Transcript.ApologyDiscardsPartialReply` | ChatBot.tsx:60-69 | after any partial stream, the error leaves the same transcript as an error with no chunks; the partial text is discarded |
| `Transcript.Exchange` | ChatBot.tsx:41-69 | after the user message and the empty bot reply are appended and the chunks stream in (then the error updater on failure), the transcript is the earlier messages, the user message and one bot reply reading the chunks concatenated in order, or exactly the apology |
| `Transcript.Render` | ChatBot.tsx:93 | rendered text contains no `'\n'`; text without one renders as itself; each `'\n'` grows the text by exactly five characters |
| `Transcript.RenderConcat` | ChatBot.tsx:93 | rendering a concatenation is concatenating the renderings, so all characters keep their order |
| `Transcript.RenderJoinsLines` | ChatBot.tsx:93 | rendering equals cutting the text into its lines, none holding `'\n'`, and joining them with `<br />` |
| `Gemini.ExtractPayload` | gemini.ts:10 | `split(',')[1]` is defined exactly when the data URL contains a comma |
| `Gemini.ExtractPayloadIsSecondField` | gemini.ts:10 | the payload is the text between the first comma and the next comma or the end of the URL |
| `Gemini.ExtractPayloadPosition` | gemini.ts:10 | conversely, every extracted payload is comma-free and sits right after the first comma, followed by a comma or the end |
| `Gemini.FileToGenerativePart` | gemini.ts:7-16 | the inline part carries the extracted payload and the file's own MIME type; it is undefined-free exactly when the data URL has a comma |
| `Gemini.BuildPrompt` | gemini.ts:43-49 | the prompt is the fixed instructions followed by the source text itself or, for a file, by the placeholder `[محتوى من الملف المرفوع]` |
| `Gemini.PromptCarriesSource` | gemini.ts:49 | a text source occurs verbatim in the prompt; for a file the placeholder occurs |
| `Gemini.PromptIgnoresFile` | gemini.ts:110 | the prompt for a file source does not depend on the file's payload or MIME type |
| `Gemini.ContentParts` | gemini.ts:51 | a text source gives exactly one part, the prompt; a file source gives two, its inline part first and the prompt last |
| `Gemini.RequestParts` | gemini.ts:49-51 | a request has an inline part if and only if the source is a file; that part is the file's own data; the only text part is the prompt, and it is last |
| `Gemini.ParseJsonResponse` | gemini.ts:62-68 | success exactly when the response has text and the parser accepts the trimmed text, with that parse as the value; otherwise failure with exactly the given message |
| `Gemini.ExamFromResponse` | gemini.ts:62-68 | `generateExam`: the parsed trimmed text, or failure with exactly the exam-format message |
| `Gemini.CorrectionFromResponse` | gemini.ts:94-100 | `correctExam`: the parsed trimmed text, or failure with exactly the correction message |
| `Gemini.ParseIgnoresPadding` | gemini.ts:63-64 | whitespace around the response text does not change the outcome |
| `Gemini.BlankResponseFails` | gemini.ts:63-67 | an all-whitespace response fails with the fixed message when the parser rejects the empty text |
| `Gemini.FirstPart` | gemini.ts:146 | the optional chain reaches a part exactly when candidates, the first candidate's content and its parts all exist and are non-empty; the part is the first part of the first candidate |
| `Gemini.ImageFromResponse` | gemini.ts:146-150 | success exactly when the first part has inline data, with value `data:<mimeType>;base64,<data>`, where an absent type or payload reads `undefined`; otherwise failure with exactly `فشل إنشاء الصورة.` |
| `Gemini.DataUri` | gemini.ts:148 | the URI starts with `data:` followed by the MIME type, ends with the payload and is 13 characters longer than both; with a comma-free type, its first comma sits right before the payload |
| `Gemini.DataUriPayloadRoundTrip` | gemini.ts:148 | for a comma-free type and payload, extracting the payload from the built data URI gives back the image data |
| `Gemini.Session.constructor` | gemini.ts:158-163 | a new session is created with the chat model and the system instruction |
| `Gemini.ChatGateway.constructor` | gemini.ts:154 | the session slot starts empty, no session has been created and nothing has been sent |
| `Gemini.ChatGateway.GetChatInstance` | gemini.ts:155-166 | a session is created only when the slot is empty; otherwise the stored session is returned and none is created; afterwards the slot holds the returned session and exactly one session has ever been created; nothing is sent |
| `Gemini.ChatGateway.StreamChatResponse` | gemini.ts:168-174 | the stored session is reused, or a fresh one with the chat model and system instruction is created; the prompt is sent on that single session, appended once to the record of sent messages; exactly one forwarded text per stream element, in stream order, each equal to that element's text; nothing is accumulated |
| `Gemini.TwoSends` | gemini.ts:155-174 | two sends, each with its own stream, return the same session, which is the one in the slot: the stored one if there was one, else a fresh one; exactly one session exists; both prompts are sent in order and each send forwards its own stream's texts |
| `Gemini.ChunkTexts` | gemini.ts:171-172 | one text per stream element, in order, each equal to that element's text |
| `ChatBot.ChatWidget.constructor` | ChatBot.tsx:17-23 | the widget mounts closed, with an empty transcript and input, not loading and not initialised |
| `ChatBot.ChatWidget.Toggle` | ChatBot.tsx:31-36 | the toggle button (`ChatBot.tsx:78`) flips `isOpen`; the first opening sets the transcript to `[welcome]`; later openings leave it unchanged; input and loading are untouched |
| `ChatBot.ChatWidget.SetInput` | ChatBot.tsx:115 | only the input changes |
| `ChatBot.ChatWidget.CanSend` | ChatBot.tsx:39 | a send goes ahead exactly when the input is not all whitespace and no send is loading |
| `ChatBot.ChatWidget.BeginSend` | ChatBot.tsx:39-47 | a refused send leaves transcript, input and loading unchanged; an accepted one appends exactly the user message with the untrimmed input and then an empty bot message, clears the input, sets loading and returns the original input as the prompt |
| `ChatBot.ChatWidget.OnChunk` | ChatBot.tsx:50-58 | the transcript becomes the chunk updater's result, so while a send is loading the chunk always lands at the end of the bot reply (which is also why the typing indicator's check at `ChatBot.tsx:97` holds); nothing else changes |
| `ChatBot.ChatWidget.OnError` | ChatBot.tsx:60-69 | the transcript becomes the error updater's result, so while a send is loading the bot reply is replaced by exactly the apology; nothing else changes |
| `ChatBot.ChatWidget.Finish` | ChatBot.tsx:70-72 | loading is cleared; nothing else changes |
| `ChatBot.ChatWidget.ReceiveChunks` | ChatBot.tsx:50-59 | the chunk updater runs once per forwarded text, in order |
| `ChatBot.ChatWidget.AwaitReply` | ChatBot.tsx:49-72 | the prompt is sent once, and a session already in the slot stays there; the transcript is the chunk updaters applied to the forwarded texts in order, followed by the error updater when the stream fails; loading is cleared and the input is untouched |
| `ChatBot.ChatWidget.HandleSend` | ChatBot.tsx:38-73 | refused: nothing changes. Accepted: earlier messages are kept; one user message with the untrimmed input is added; one bot reply is added whose text is the chunks concatenated in order, or exactly the apology on failure; input is empty and loading is cleared; the original input is sent once, as the newest message on the session, and a session already in the slot stays there. Refused: the gateway's slot, session count and sent messages are unchanged too |

## Left out

- All network calls (`generateContent`, `chats.create`, `sendMessageStream`) are foreign calls. They are replaced by their results: the response text, the image response, or the sequence of stream chunks plus a flag saying whether the stream fails.
- `JSON.parse` is a parser oracle (`string -> Option<T>`) passed to the model. Its internals and the unchecked `as Exam` cast are not modelled, so nothing is said about the shape of a parsed exam.
- The Arabic prompt wording, the difficulty, exam-type and style labels, and the `examSchema` object are payloads for the backend. The prompt's fixed instructions are an `instructions` parameter, and only the part of the prompt that depends on the source is modelled.
- `createProject` and the image prompt of `generateProjectImage` are left out. They are a prompt string and a network call, with no logic of their own.
- `FileReader` and the asynchronous file read are browser I/O. The model starts from the data URL the reader produced.
- `Gemini.FileToGenerativePart`: the source builds an object whose `data` is `undefined` when the data URL has no comma; the model returns `None` instead.
- `ChatBot.ChatWidget.HandleSend`: the model runs the chunk updaters after `StreamChatResponse` returns, not during the stream. The final state is the same, but the order of state changes in between is not modelled. Nor is a chunk arriving after the widget closes or unmounts, or any cancellation.
- The sent messages are recorded in `Gemini.ChatGateway.sent` rather than inside the session object; the session's own conversation history is kept by the backend library and is not modelled.
- The `console.error` calls in the catch blocks (`ChatBot.tsx:61`, `gemini.ts:66`, `gemini.ts:98`) are logging output and are left out.
- Errors thrown before the stream starts (in `getChatInstance` or when opening the stream) are treated like a stream that fails before its first chunk. The model always creates the session, whereas the source creates none when `getChatInstance` itself throws.
- `Gemini.ChatGateway.StreamChatResponse`: JavaScript would forward an undefined `chunk.text`, and the widget would append the string "undefined". Chunk texts are always strings in the model.
- JavaScript strings are UTF-16 code units; the model's strings are sequences of Unicode scalar values. Numbers in `CorrectionResult` are integers in the model.
- Scroll-to-bottom, the typing indicator, JSX markup and icons are rendering, and are left out. So are `fileUtils.ts` (clipboard, PDF and DOCX export, link clicking), `App.tsx`, `Header.tsx`, `AnimatedBackground.tsx` and `Loader.tsx`.
- `HistoryItem` is declared in `types.ts` but never used, so it is not modelled.
