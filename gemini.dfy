/** The gateway to the generative backend (gemini.ts), with every network
    call abstracted away: how uploaded files become inline parts, how the
    request contents are assembled, how text and image responses are
    normalised, the lazily created chat session and the forwarding of the
    chat stream. */
module Gemini {
  import opened Wrappers
  import opened Types
  import opened Strings

  /** Base64 payload of a file with its MIME type (`inlineData`). */
  datatype InlineData = InlineData(data: string, mimeType: string)

  /** The material an exam or an explanation is built from: pasted text or
      an uploaded file (`string | { inlineData }`). */
  datatype Source = TextSource(text: string) | FileSource(file: InlineData)

  /** One request content part. */
  datatype Part = TextPart(text: string) | InlineDataPart(inlineData: InlineData)

  /** What the prompt says in place of an uploaded file. */
  const FilePlaceholder: string := "[محتوى من الملف المرفوع]"

  const ExamFormatError: string :=
    "فشل الذكاء الاصطناعي في إنشاء تنسيق امتحان صالح. يرجى المحاولة مرة أخرى."
  const CorrectionFormatError: string :=
    "فشل الذكاء الاصطناعي في تقديم تقييم صالح. يرجى المحاولة مرة أخرى."
  const ImageError: string := "فشل إنشاء الصورة."

  const ChatModel: string := "gemini-2.5-flash"
  const ChatInstruction: string := "أنت مساعد ذكي وودود. تحدث باللغة العربية."

  // ---------------------------------------------------------------------
  // Uploaded files

  /** `dataUrl.split(',')[1]`: absent when the URL has no comma. */
  function ExtractPayload(dataUrl: string): (r: Option<string>)
    ensures r.Some? <==> ',' in dataUrl
  {
    SplitPieces(dataUrl, ',');
    CountPositive(dataUrl, ',');
    var parts := Split(dataUrl, ',');
    if |parts| >= 2 then Some(parts[1]) else None
  }

  lemma {:induction false} CountPositive(s: string, c: char)
    ensures Count(s, c) > 0 <==> c in s
  {
    if s != [] {
      CountPositive(s[1..], c);
      assert s == [s[0]] + s[1..];
    }
  }

  /** The payload is exactly the text between the first comma of the data
      URL and the next comma, or the end of the URL. */
  lemma ExtractPayloadIsSecondField(dataUrl: string, head: string, payload: string, rest: string)
    requires ',' !in head && ',' !in payload && (rest == [] || rest[0] == ',')
    requires dataUrl == head + [','] + payload + rest
    ensures ExtractPayload(dataUrl) == Some(payload)
  {
    assert dataUrl == head + ([','] + payload + rest);
    SplitPrefix(head, [','] + payload + rest, ',');
    var tail := [','] + payload + rest;
    assert tail[0] == ',' && tail[1..] == payload + rest;
    SplitPrefix(payload, rest, ',');
    if rest == [] {
      assert Split(rest, ',') == [[]];
      assert payload + [] == payload;
    } else {
      assert Split(rest, ',')[0] == [];
      assert payload + [] == payload;
    }
  }

  /** Conversely the extracted payload starts right after the first comma
      of the URL, contains no comma, and ends at the next comma or at the end
      of the URL. */
  lemma ExtractPayloadPosition(dataUrl: string)
    requires ExtractPayload(dataUrl).Some?
    ensures var p := ExtractPayload(dataUrl).value;
      exists k :: 0 <= k && k + 1 + |p| <= |dataUrl| && dataUrl[k] == ','
        && ',' !in dataUrl[..k] && ',' !in p && dataUrl[k + 1..k + 1 + |p|] == p
        && (k + 1 + |p| == |dataUrl| || dataUrl[k + 1 + |p|] == ',')
  {
    var parts := Split(dataUrl, ',');
    SplitAfterFirst(dataUrl, ',');
    SplitFirstPiece(dataUrl, ',');
    var k := |parts[0]|;
    var t := dataUrl[k + 1..];
    SplitFirstPiece(t, ',');
    var p := parts[1];
    assert Split(t, ',')[0] == p;
    assert ExtractPayload(dataUrl).value == p;
    assert dataUrl[k + 1..k + 1 + |p|] == t[..|p|];
    assert k + 1 + |p| == |dataUrl| || dataUrl[k + 1 + |p|] == t[|p|];
  }

  /** `fileToGenerativePart` once the file has been read as the data URL
      `dataUrl`: the payload extracted from it and the file's own type. */
  function FileToGenerativePart(dataUrl: string, fileType: string): (r: Option<InlineData>)
    ensures r.Some? <==> ',' in dataUrl
    ensures r.Some? ==> r.value.mimeType == fileType && Some(r.value.data) == ExtractPayload(dataUrl)
  {
    match ExtractPayload(dataUrl)
    case Some(data) => Some(InlineData(data, fileType))
    case None => None
  }

  // ---------------------------------------------------------------------
  // Request assembly (generateExam, explainTopic)

  /** The prompt: the task's fixed instructions followed by the source content. */
  function BuildPrompt(instructions: string, source: Source): (prompt: string)
    ensures |instructions| <= |prompt|
    ensures prompt[..|instructions|] == instructions
    ensures source.TextSource? ==> prompt[|instructions|..] == source.text
    ensures source.FileSource? ==> prompt[|instructions|..] == FilePlaceholder
  {
    instructions + match source
      case TextSource(text) => text
      case FileSource(_) => FilePlaceholder
  }

  /** A text source appears verbatim in the prompt; a file source appears
      only as the placeholder. */
  lemma PromptCarriesSource(instructions: string, source: Source)
    ensures source.TextSource? ==> Contains(BuildPrompt(instructions, source), source.text)
    ensures source.FileSource? ==> Contains(BuildPrompt(instructions, source), FilePlaceholder)
  {
    var prompt := BuildPrompt(instructions, source);
    assert prompt[|instructions|..] == if source.TextSource? then source.text else FilePlaceholder;
  }

  /** The prompt does not depend on an uploaded file's payload or type. */
  lemma PromptIgnoresFile(instructions: string, a: InlineData, b: InlineData)
    ensures BuildPrompt(instructions, FileSource(a)) == BuildPrompt(instructions, FileSource(b))
  {
  }

  /** The content parts sent with a prompt: the prompt alone for a text
      source, the file's inline part and then the prompt for a file source. */
  function ContentParts(prompt: string, source: Source): (parts: seq<Part>)
    ensures |parts| == if source.TextSource? then 1 else 2
    ensures parts[|parts| - 1] == TextPart(prompt)
    ensures source.FileSource? ==> parts[0] == InlineDataPart(source.file)
  {
    match source
    case TextSource(_) => [TextPart(prompt)]
    case FileSource(file) => [InlineDataPart(file), TextPart(prompt)]
  }

  /** The parts of a `generateExam` or `explainTopic` request. It carries
      inline data exactly when its source is a file, and then that file's
      data and nothing else inline; its one text part is the prompt, last. */
  function RequestParts(instructions: string, source: Source): (parts: seq<Part>)
    ensures (exists k :: 0 <= k < |parts| && parts[k].InlineDataPart?) <==> source.FileSource?
    ensures forall k :: 0 <= k < |parts| && parts[k].InlineDataPart? ==>
      source.FileSource? && parts[k].inlineData == source.file
    ensures forall k :: 0 <= k < |parts| && parts[k].TextPart? ==>
      k == |parts| - 1 && parts[k].text == BuildPrompt(instructions, source)
  {
    var parts := ContentParts(BuildPrompt(instructions, source), source);
    assert source.FileSource? ==> parts[0].InlineDataPart?;
    parts
  }

  // ---------------------------------------------------------------------
  // Response normalisation

  /** The parse-or-fixed-error wrapper: the response text, when there is
      one, is trimmed and handed to the JSON parser `parse`; a missing text
      or a failed parse is reported with the fixed message `failure`. */
  function ParseJsonResponse<T>(text: Option<string>, parse: string -> Option<T>, failure: string): (r: Result<T, string>)
    ensures r.Success? <==> text.Some? && parse(Trim(text.value)).Some?
    ensures r.Success? ==> Some(r.value) == parse(Trim(text.value))
    ensures r.Failure? ==> r.error == failure
  {
    match text
    case None => Failure(failure)
    case Some(t) =>
      match parse(Trim(t))
      case Some(v) => Success(v)
      case None => Failure(failure)
  }

  /** The result of `generateExam` for the response text `text`. */
  function ExamFromResponse(text: Option<string>, parse: string -> Option<Exam>): (r: Result<Exam, string>)
    ensures r.Success? <==> text.Some? && parse(Trim(text.value)).Some?
    ensures r.Success? ==> Some(r.value) == parse(Trim(text.value))
    ensures r.Failure? ==> r.error == ExamFormatError
  {
    ParseJsonResponse(text, parse, ExamFormatError)
  }

  /** The result of `correctExam` for the response text `text`. */
  function CorrectionFromResponse(text: Option<string>, parse: string -> Option<CorrectionResult>): (r: Result<CorrectionResult, string>)
    ensures r.Success? <==> text.Some? && parse(Trim(text.value)).Some?
    ensures r.Success? ==> Some(r.value) == parse(Trim(text.value))
    ensures r.Failure? ==> r.error == CorrectionFormatError
  {
    ParseJsonResponse(text, parse, CorrectionFormatError)
  }

  /** Whitespace around the response does not change the outcome. */
  lemma ParseIgnoresPadding<T>(before: string, t: string, after: string, parse: string -> Option<T>, failure: string)
    requires IsBlank(before) && IsBlank(after)
    ensures ParseJsonResponse(Some(before + t + after), parse, failure)
         == ParseJsonResponse(Some(t), parse, failure)
  {
    TrimIgnoresPadding(before, t, after);
  }

  /** A blank response is always a failure when the parser rejects the empty
      text, which `JSON.parse` does. */
  lemma BlankResponseFails<T>(t: string, parse: string -> Option<T>, failure: string)
    requires IsBlank(t) && parse([]).None?
    ensures ParseJsonResponse(Some(t), parse, failure) == Failure(failure)
  {
    TrimEmptyIffBlank(t);
  }

  /** The image response, as far as the gateway reads it
      (`candidates?.[0]?.content?.parts?.[0]?.inlineData`). */
  datatype ResponsePart = ResponsePart(inlineData: Option<ResponseInlineData>)
  /** Inline data as the response type has it: both fields may be absent. */
  datatype ResponseInlineData = ResponseInlineData(mimeType: Option<string>, data: Option<string>)
  datatype Content = Content(parts: Option<seq<ResponsePart>>)
  datatype Candidate = Candidate(content: Option<Content>)
  datatype ImageResponse = ImageResponse(candidates: Option<seq<Candidate>>)

  /** The first part of the first candidate, when the chain reaches one. */
  function FirstPart(response: ImageResponse): (r: Option<ResponsePart>)
    ensures r.Some? <==>
      response.candidates.Some? && |response.candidates.value| > 0
      && response.candidates.value[0].content.Some?
      && response.candidates.value[0].content.value.parts.Some?
      && |response.candidates.value[0].content.value.parts.value| > 0
    ensures r.Some? ==> r.value == response.candidates.value[0].content.value.parts.value[0]
  {
    match response.candidates
    case None => None
    case Some(candidates) =>
      if |candidates| == 0 then None
      else match candidates[0].content
        case None => None
        case Some(content) =>
          match content.parts
          case None => None
          case Some(parts) => if |parts| == 0 then None else Some(parts[0])
  }

  /** `data:<mimeType>;base64,<data>`: the URI starts with `data:` and
      ends with the payload, thirteen characters longer than type and payload
      together; when the type has no comma, the first comma is the one right
      before the payload. */
  function DataUri(image: InlineData): (uri: string)
    ensures |uri| == |image.mimeType| + |image.data| + 13
    ensures uri[..5] == "data:" && uri[5..5 + |image.mimeType|] == image.mimeType
    ensures uri[|uri| - |image.data|..] == image.data
    ensures ',' !in image.mimeType ==>
      uri[12 + |image.mimeType|] == ',' && ',' !in uri[..12 + |image.mimeType|]
  {
    var uri := "data:" + image.mimeType + ";base64," + image.data;
    assert uri[..12 + |image.mimeType|] == "data:" + image.mimeType + ";base64";
    assert ',' !in "data:" && ',' !in ";base64";
    uri
  }

  /** A possibly absent field interpolated into a template literal: its
      text, or `undefined` when it is absent. */
  function Interpolated(field: Option<string>): string {
    match field
    case Some(value) => value
    case None => "undefined"
  }

  /** The result of `generateProjectImage`: the data URI of the first part's
      inline image, or the fixed image error. Only the presence of the inline
      data is checked; an absent type or payload is written as `undefined`. */
  function ImageFromResponse(response: ImageResponse): (r: Result<string, string>)
    ensures r.Success? <==> FirstPart(response).Some? && FirstPart(response).value.inlineData.Some?
    ensures r.Success? ==>
      var image := FirstPart(response).value.inlineData.value;
      r.value == DataUri(InlineData(Interpolated(image.data), Interpolated(image.mimeType)))
    ensures r.Success? ==>
      var image := FirstPart(response).value.inlineData.value;
      image.mimeType.Some? && image.data.Some? ==>
        r.value == DataUri(InlineData(image.data.value, image.mimeType.value))
    ensures r.Failure? ==> r.error == ImageError
  {
    match FirstPart(response)
    case Some(ResponsePart(Some(image))) =>
      Success(DataUri(InlineData(Interpolated(image.data), Interpolated(image.mimeType))))
    case _ => Failure(ImageError)
  }

  /** A data URI built from an image gives its payload back to the same
      extraction `fileToGenerativePart` applies, when neither the type nor
      the (base64) payload contains a comma. */
  lemma DataUriPayloadRoundTrip(image: InlineData)
    requires ',' !in image.mimeType && ',' !in image.data
    ensures ExtractPayload(DataUri(image)) == Some(image.data)
  {
    var head := "data:" + image.mimeType + ";base64";
    assert ',' !in "data:" && ',' !in ";base64";
    assert DataUri(image) == head + [','] + image.data + [];
    ExtractPayloadIsSecondField(DataUri(image), head, image.data, []);
  }

  // ---------------------------------------------------------------------
  // Chat session and stream

  /** A chat session of the backend, as `ai.chats.create` configures it. */
  class Session {
    const model: string
    const systemInstruction: string

    /** `ai.chats.create` with the chat model and system instruction. */
    constructor ()
      ensures model == ChatModel && systemInstruction == ChatInstruction
    {
      model := ChatModel;
      systemInstruction := ChatInstruction;
    }
  }

  /** One element of the stream (a partial response with its `text`). */
  datatype StreamChunk = StreamChunk(text: string)

  /** The texts of a sequence of chunks, in order. */
  function ChunkTexts(chunks: seq<StreamChunk>): (texts: seq<string>)
    ensures |texts| == |chunks|
    ensures forall i :: 0 <= i < |chunks| ==> texts[i] == chunks[i].text
  {
    if chunks == [] then [] else [chunks[0].text] + ChunkTexts(chunks[1..])
  }

  /** The module-level `chatInstance` slot, the number of sessions ever
      created, and the messages handed to `sendMessageStream` on the
      session, in order. */
  class ChatGateway {
    var chatInstance: Option<Session>
    var created: nat
    var sent: seq<string>

    /** At most one session is ever created, and it is the one in the slot. */
    ghost predicate Valid()
      reads this
    {
      created == if chatInstance.Some? then 1 else 0
    }

    /** The slot starts empty (`let chatInstance = null`). */
    constructor ()
      ensures Valid() && chatInstance == None && created == 0 && sent == []
    {
      chatInstance := None;
      created := 0;
      sent := [];
    }

    /** `getChatInstance`: a session is created only when there is none;
        afterwards the same session is returned on every call. */
    method GetChatInstance() returns (chat: Session)
      requires Valid()
      modifies this
      ensures Valid() && chatInstance == Some(chat) && created == 1
      ensures old(chatInstance).Some? ==> chat == old(chatInstance.value) && created == old(created)
      ensures old(chatInstance).None? ==>
        fresh(chat) && chat.model == ChatModel && chat.systemInstruction == ChatInstruction
      ensures sent == old(sent)
    {
      if chatInstance.None? {
        var session := new Session();
        chatInstance := Some(session);
        created := created + 1;
      }
      chat := chatInstance.value;
    }

    /** `streamChatResponse(prompt, onChunk)` against a stream that yields
        `stream`: the prompt is sent on the one session and `forwarded` lists
        the arguments of the `onChunk` calls, one per element, in stream
        order. */
    method StreamChatResponse(prompt: string, stream: seq<StreamChunk>) returns (chat: Session, forwarded: seq<string>)
      requires Valid()
      modifies this
      ensures Valid() && chatInstance == Some(chat) && created == 1
      ensures old(chatInstance).Some? ==> chat == old(chatInstance.value)
      ensures old(chatInstance).None? ==>
        fresh(chat) && chat.model == ChatModel && chat.systemInstruction == ChatInstruction
      ensures sent == old(sent) + [prompt]
      ensures forwarded == ChunkTexts(stream)
    {
      chat := GetChatInstance();
      sent := sent + [prompt];
      forwarded := [];
      for i := 0 to |stream|
        invariant |forwarded| == i
        invariant forall j :: 0 <= j < i ==> forwarded[j] == stream[j].text
      {
        forwarded := forwarded + [stream[i].text];
      }
    }
  }

  /** Two chat sends, each with its own stream, go through one session:
      the one already in the slot, or else one created by the first send. */
  method TwoSends(gateway: ChatGateway, first: string, firstStream: seq<StreamChunk>,
                  second: string, secondStream: seq<StreamChunk>)
    returns (a: Session, b: Session, firstTexts: seq<string>, secondTexts: seq<string>)
    requires gateway.Valid()
    modifies gateway
    ensures gateway.Valid() && gateway.created == 1
    ensures a == b && gateway.chatInstance == Some(a)
    ensures old(gateway.chatInstance).Some? ==> a == old(gateway.chatInstance.value)
    ensures old(gateway.chatInstance).None? ==> fresh(a)
    ensures gateway.sent == old(gateway.sent) + [first, second]
    ensures firstTexts == ChunkTexts(firstStream) && secondTexts == ChunkTexts(secondStream)
  {
    a, firstTexts := gateway.StreamChatResponse(first, firstStream);
    b, secondTexts := gateway.StreamChatResponse(second, secondStream);
  }
}
