/** The state of the chat widget (ChatBot.tsx) and the steps that change it:
    opening, typing, and the send handler with its stream callbacks. */
module ChatBot {
  import opened Types
  import opened Strings
  import opened Transcript
  import Gemini

  /** What the backend delivers for one send: the chunks that arrive, and
      whether the stream then fails instead of completing. */
  datatype StreamReply = StreamReply(chunks: seq<Gemini.StreamChunk>, fails: bool)

  /** The text the bot reply ends with: every chunk in order, or the apology
      when the stream fails. */
  function ReplyText(reply: StreamReply): string {
    if reply.fails then Apology else Concat(Gemini.ChunkTexts(reply.chunks))
  }

  /** The widget's state: whether it is open, the transcript, the input
      field, the loading flag and the one-shot `hasInitialized` ref. */
  class ChatWidget {
    var isOpen: bool
    var messages: seq<ChatMessage>
    var input: string
    var isLoading: bool
    var hasInitialized: bool

    /** An open widget has been initialised, and while a send is loading the
        transcript ends with the bot reply being streamed. */
    ghost predicate Valid()
      reads this
    {
      (isOpen ==> hasInitialized) && (isLoading ==> LastIsBot(messages))
    }

    /** The widget as first mounted: closed, empty, idle. */
    constructor ()
      ensures Valid()
      ensures !isOpen && messages == [] && input == [] && !isLoading && !hasInitialized
    {
      isOpen := false;
      messages := [];
      input := [];
      isLoading := false;
      hasInitialized := false;
    }

    /** The toggle button followed by the effect on `isOpen`: the first
        opening installs the welcome message; later openings keep the
        transcript. */
    method Toggle()
      requires Valid()
      modifies this
      ensures Valid()
      ensures isOpen == !old(isOpen) && hasInitialized == (old(hasInitialized) || isOpen)
      ensures messages == if isOpen && !old(hasInitialized) then [Welcome] else old(messages)
      ensures input == old(input) && isLoading == old(isLoading)
    {
      isOpen := !isOpen;
      if isOpen && !hasInitialized {
        messages := [Welcome];
        hasInitialized := true;
      }
    }

    /** The input field's `onChange`. */
    method SetInput(text: string)
      requires Valid()
      modifies this
      ensures Valid()
      ensures input == text
      ensures isOpen == old(isOpen) && messages == old(messages)
      ensures isLoading == old(isLoading) && hasInitialized == old(hasInitialized)
    {
      input := text;
    }

    /** The guard of `handleSend`: a send goes ahead unless the input trims
        to nothing or a send is already loading. */
    method CanSend() returns (ok: bool)
      ensures ok <==> !IsBlank(input) && !isLoading
    {
      ok := !TrimsToEmpty(input) && !isLoading;
    }

    /** The synchronous start of `handleSend`. A blank input or a send
        already loading is refused and nothing changes; otherwise the user
        message (the untrimmed input) and an empty bot reply are appended,
        the input is cleared, loading is set, and the original input is
        returned as the prompt to stream. */
    method BeginSend() returns (accepted: bool, prompt: string)
      requires Valid()
      modifies this
      ensures Valid()
      ensures accepted <==> !IsBlank(old(input)) && !old(isLoading)
      ensures !accepted ==> messages == old(messages) && input == old(input) && isLoading == old(isLoading)
      ensures accepted ==>
        messages == old(messages) + [ChatMessage(User, old(input)), ChatMessage(Bot, [])]
        && input == [] && isLoading && prompt == old(input)
      ensures isOpen == old(isOpen) && hasInitialized == old(hasInitialized)
    {
      accepted := CanSend();
      if !accepted {
        return false, [];
      }
      var text := input;
      prompt := text;
      ghost var before := messages;
      messages := messages + [ChatMessage(User, text)];
      input := [];
      isLoading := true;
      messages := messages + [ChatMessage(Bot, [])];
      assert messages == before + [ChatMessage(User, text), ChatMessage(Bot, [])];
    }

    /** The `onChunk` callback: the chunk updater applied to the transcript. */
    method OnChunk(chunk: string)
      requires Valid()
      modifies this
      ensures Valid()
      ensures messages == AppendChunk(old(messages), chunk)
      ensures old(isLoading) ==>
        messages[|messages| - 1] == ChatMessage(Bot, old(messages)[|old(messages)| - 1].text + chunk)
      ensures isOpen == old(isOpen) && input == old(input)
      ensures isLoading == old(isLoading) && hasInitialized == old(hasInitialized)
    {
      messages := AppendChunk(messages, chunk);
    }

    /** The `catch` branch: the error updater applied to the transcript. */
    method OnError()
      requires Valid()
      modifies this
      ensures Valid()
      ensures messages == ApologizeLast(old(messages))
      ensures old(isLoading) ==> messages[|messages| - 1] == ChatMessage(Bot, Apology)
      ensures isOpen == old(isOpen) && input == old(input)
      ensures isLoading == old(isLoading) && hasInitialized == old(hasInitialized)
    {
      messages := ApologizeLast(messages);
    }

    /** The `finally` branch: loading is cleared. */
    method Finish()
      requires Valid()
      modifies this
      ensures Valid()
      ensures !isLoading
      ensures isOpen == old(isOpen) && messages == old(messages)
      ensures input == old(input) && hasInitialized == old(hasInitialized)
    {
      isLoading := false;
    }

    /** The `for await` loop of `streamChatResponse` with `onChunk` bound to
        this widget: the chunk updater runs once per text, in order. */
    method ReceiveChunks(texts: seq<string>)
      requires Valid()
      modifies this
      ensures Valid()
      ensures messages == ApplyChunks(old(messages), texts)
      ensures isOpen == old(isOpen) && input == old(input)
      ensures isLoading == old(isLoading) && hasInitialized == old(hasInitialized)
    {
      for i := 0 to |texts|
        invariant Valid()
        invariant messages == ApplyChunks(old(messages), texts[..i])
        invariant isOpen == old(isOpen) && input == old(input)
        invariant isLoading == old(isLoading) && hasInitialized == old(hasInitialized)
      {
        assert texts[..i + 1][..i] == texts[..i];
        OnChunk(texts[i]);
      }
      assert texts[..|texts|] == texts;
    }

    /** The `try`/`catch`/`finally` of `handleSend`: the prompt is streamed,
        every chunk goes through the chunk updater, a failure through the
        error updater, and loading is cleared at the end. */
    method AwaitReply(gateway: Gemini.ChatGateway, prompt: string, reply: StreamReply)
      requires Valid() && gateway.Valid()
      modifies this, gateway
      ensures Valid() && gateway.Valid()
      ensures var streamed := ApplyChunks(old(messages), Gemini.ChunkTexts(reply.chunks));
        messages == if reply.fails then ApologizeLast(streamed) else streamed
      ensures !isLoading && input == old(input)
      ensures isOpen == old(isOpen) && hasInitialized == old(hasInitialized)
      ensures gateway.chatInstance.Some? && gateway.sent == old(gateway.sent) + [prompt]
      ensures old(gateway.chatInstance).Some? ==> gateway.chatInstance == old(gateway.chatInstance)
    {
      var chat, forwarded := gateway.StreamChatResponse(prompt, reply.chunks);
      ReceiveChunks(forwarded);
      if reply.fails {
        OnError();
      }
      Finish();
    }

    /** The whole of `handleSend` against the reply `reply`. A refused send
        changes nothing. An accepted one leaves the earlier messages as they
        were, adds the user message and one bot reply whose text is all the
        chunks concatenated in order, or exactly the apology when the stream
        fails, clears the input and ends with loading cleared; the original
        input is what the chat session was sent. */
    method HandleSend(gateway: Gemini.ChatGateway, reply: StreamReply) returns (accepted: bool)
      requires Valid() && gateway.Valid()
      modifies this, gateway
      ensures Valid() && gateway.Valid()
      ensures accepted <==> !IsBlank(old(input)) && !old(isLoading)
      ensures !accepted ==> messages == old(messages) && input == old(input) && isLoading == old(isLoading)
      ensures !accepted ==>
        gateway.chatInstance == old(gateway.chatInstance) && gateway.created == old(gateway.created)
        && gateway.sent == old(gateway.sent)
      ensures old(gateway.chatInstance).Some? ==> gateway.chatInstance == old(gateway.chatInstance)
      ensures accepted ==>
        && messages == old(messages) + [ChatMessage(User, old(input)), ChatMessage(Bot, ReplyText(reply))]
        && input == [] && !isLoading
        && gateway.chatInstance.Some? && gateway.sent == old(gateway.sent) + [old(input)]
      ensures isOpen == old(isOpen) && hasInitialized == old(hasInitialized)
    {
      var prompt;
      accepted, prompt := BeginSend();
      if !accepted {
        return;
      }
      ghost var before := old(messages);
      AwaitReply(gateway, prompt, reply);
      Exchange(before, prompt, Gemini.ChunkTexts(reply.chunks), reply.fails);
      assert messages == before + [ChatMessage(User, prompt), ChatMessage(Bot, ReplyText(reply))];
    }
  }
}
