/** The pure part of the chat widget (ChatBot.tsx): the transcript updates
    handed to `setMessages` by the chunk and error callbacks, and the text
    transform applied when a message is rendered. */
module Transcript {
  import opened Types
  import opened Strings

  /** The message installed when the widget is opened for the first time. */
  const Welcome: ChatMessage := ChatMessage(Bot, WelcomeText)

  const WelcomeText: string :=
    "أهلاً بك في AI Book! أنا مساعدك الذكي.\nيمكنني مساعدتك في:\n- **مولد الاختبارات:** أنشئ امتحانات من أي نص أو ملف.\n- **شرح الدروس:** بسّط المواضيع المعقدة بأساليب مختلفة.\n- **منشئ المشاريع:** جهّز مشاريع متكاملة مع صور.\nكيف يمكنني خدمتك اليوم؟"

  /** The text that replaces a bot reply whose stream failed. */
  const Apology: string := "عذراً، لقد واجهت خطأ."

  /** The line break markup a `'\n'` is rendered as. */
  const LineBreak: string := "<br />"

  /** The transcript ends with a bot message (`lastMsg && lastMsg.sender === 'bot'`). */
  predicate LastIsBot(messages: seq<ChatMessage>) {
    |messages| > 0 && messages[|messages| - 1].sender == Bot
  }

  /** The last message with its text replaced, its sender kept
      (`[...prev.slice(0, -1), { ...lastMsg, text }]`). */
  function WithLastText(messages: seq<ChatMessage>, text: string): seq<ChatMessage>
    requires |messages| > 0
  {
    messages[..|messages| - 1] + [messages[|messages| - 1].(text := text)]
  }

  /** The updater run for one streamed chunk: the chunk is added at the end of
      a trailing bot message; any other transcript is returned unchanged. */
  function AppendChunk(messages: seq<ChatMessage>, chunk: string): (r: seq<ChatMessage>)
    ensures |r| == |messages|
    ensures forall i :: 0 <= i < |messages| - 1 ==> r[i] == messages[i]
    ensures LastIsBot(messages) ==>
      r[|r| - 1] == ChatMessage(Bot, messages[|messages| - 1].text + chunk)
    ensures !LastIsBot(messages) ==> r == messages
  {
    if LastIsBot(messages) then
      WithLastText(messages, messages[|messages| - 1].text + chunk)
    else messages
  }

  /** The updater run when the stream fails: a trailing bot message has its
      text replaced by the apology; any other transcript is returned unchanged. */
  function ApologizeLast(messages: seq<ChatMessage>): (r: seq<ChatMessage>)
    ensures |r| == |messages|
    ensures forall i :: 0 <= i < |messages| - 1 ==> r[i] == messages[i]
    ensures LastIsBot(messages) ==> r[|r| - 1] == ChatMessage(Bot, Apology)
    ensures !LastIsBot(messages) ==> r == messages
  {
    if LastIsBot(messages) then WithLastText(messages, Apology) else messages
  }

  /** The transcript after the chunk updaters ran for `chunks`, in order:
      its length, every message but the last, and whether it ends with a bot
      message are those of the transcript they ran on. */
  function ApplyChunks(messages: seq<ChatMessage>, chunks: seq<string>): (r: seq<ChatMessage>)
    ensures |r| == |messages|
    ensures forall i :: 0 <= i < |messages| - 1 ==> r[i] == messages[i]
    ensures LastIsBot(r) <==> LastIsBot(messages)
  {
    if chunks == [] then messages
    else AppendChunk(ApplyChunks(messages, chunks[..|chunks| - 1]), chunks[|chunks| - 1])
  }

  /** Streaming onto a trailing bot message yields that message with all
      chunks concatenated onto its text, in stream order; nothing before it
      changes and the transcript keeps its length. */
  lemma {:induction false} ApplyChunksAccumulates(messages: seq<ChatMessage>, chunks: seq<string>)
    requires LastIsBot(messages)
    ensures |ApplyChunks(messages, chunks)| == |messages|
    ensures ApplyChunks(messages, chunks)[..|messages| - 1] == messages[..|messages| - 1]
    ensures ApplyChunks(messages, chunks)[|messages| - 1]
         == ChatMessage(Bot, messages[|messages| - 1].text + Concat(chunks))
  {
    var last := messages[|messages| - 1];
    assert ApplyChunks(messages, chunks)[..|messages| - 1] == messages[..|messages| - 1];
    if chunks == [] {
      assert last.text + [] == last.text;
    } else {
      var init := chunks[..|chunks| - 1];
      ApplyChunksAccumulates(messages, init);
      var before := ApplyChunks(messages, init);
      assert LastIsBot(before) && before[|messages| - 1].text == last.text + Concat(init);
      assert ApplyChunks(messages, chunks) == AppendChunk(before, chunks[|chunks| - 1]);
      assert Concat(chunks) == Concat(init) + chunks[|chunks| - 1];
      assert last.text + Concat(init) + chunks[|chunks| - 1] == last.text + Concat(chunks);
    }
  }

  /** Chunks arriving when the transcript is empty or ends with a user
      message leave it unchanged. */
  lemma {:induction false} ApplyChunksIgnored(messages: seq<ChatMessage>, chunks: seq<string>)
    requires !LastIsBot(messages)
    ensures ApplyChunks(messages, chunks) == messages
  {
    if chunks != [] {
      ApplyChunksIgnored(messages, chunks[..|chunks| - 1]);
    }
  }

  /** A failure after some chunks discards their text: the reply reads
      exactly the apology, as if no chunk had arrived. */
  lemma ApologyDiscardsPartialReply(messages: seq<ChatMessage>, chunks: seq<string>)
    requires LastIsBot(messages)
    ensures ApologizeLast(ApplyChunks(messages, chunks)) == ApologizeLast(messages)
  {
    ApplyChunksAccumulates(messages, chunks);
    var streamed := ApplyChunks(messages, chunks);
    assert ApologizeLast(streamed)[..|messages| - 1] == messages[..|messages| - 1];
  }

  /** One whole exchange: after the user message and the empty bot reply are
      appended, the chunks stream in and, on failure, the error updater runs.
      The transcript is then the earlier messages, the user message, and one
      bot reply reading the chunks concatenated in order, or exactly the
      apology. */
  lemma Exchange(before: seq<ChatMessage>, prompt: string, chunks: seq<string>, fails: bool)
    ensures var streamed := ApplyChunks(before + [ChatMessage(User, prompt), ChatMessage(Bot, [])], chunks);
      (if fails then ApologizeLast(streamed) else streamed)
      == before + [ChatMessage(User, prompt), ChatMessage(Bot, if fails then Apology else Concat(chunks))]
  {
    var placed := before + [ChatMessage(User, prompt), ChatMessage(Bot, [])];
    var streamed := ApplyChunks(placed, chunks);
    assert placed[..|placed| - 1] == before + [ChatMessage(User, prompt)];
    ApplyChunksAccumulates(placed, chunks);
    assert [] + Concat(chunks) == Concat(chunks);
    assert streamed == streamed[..|placed| - 1] + [streamed[|placed| - 1]];
    if fails {
      var final := ApologizeLast(streamed);
      assert final[..|placed| - 1] == streamed[..|placed| - 1];
      assert final == final[..|placed| - 1] + [final[|placed| - 1]];
    }
  }

  /** The markup a message text is rendered as (`text.replace(/\n/g, '<br />')`):
      no line feed is left, a text without one renders as itself, and each
      line feed grows the text by the five extra characters of the markup. */
  function Render(text: string): (r: string)
    ensures '\n' !in r
    ensures '\n' !in text ==> r == text
    ensures |r| == |text| + (|LineBreak| - 1) * Count(text, '\n')
  {
    assert '\n' !in LineBreak;
    ReplaceAll(text, '\n', LineBreak)
  }

  /** Rendering works piece by piece. */
  lemma {:induction false} RenderConcat(a: string, b: string)
    ensures Render(a + b) == Render(a) + Render(b)
  {
    if a != [] {
      assert (a + b)[0] == a[0];
      assert (a + b)[1..] == a[1..] + b;
      RenderConcat(a[1..], b);
    } else {
      assert a + b == b;
    }
  }

  /** Rendering is cutting the text into lines and joining them with the
      line break markup, so the lines themselves are kept in order. */
  lemma RenderJoinsLines(text: string)
    ensures Render(text) == Join(Split(text, '\n'), LineBreak)
    ensures forall k :: 0 <= k < |Split(text, '\n')| ==> '\n' !in Split(text, '\n')[k]
  {
    ReplaceAllIsSplitJoin(text, '\n', LineBreak);
    SplitPieces(text, '\n');
  }
}
