/** `OllamaClient`: embeddings, chat completions and model checks against an Ollama server. The
    server is a value of type `Server` whose functions give the reply to each request; the client
    builds the requests, accumulates the replies and turns exceptions into messages. */
module Ollama {
  import opened Wrappers

  /** An embedding: the floats are carried along, never computed with. */
  type Vector = seq<real>

  const DefaultModel: string := "gemma3:1b"
  const DefaultTemperature: real := 0.7
  const DefaultMaxTokens: int := 2048
  /** Length of the zero vector that stands in for an embedding that could not be generated. */
  const FallbackDimension: nat := 768

  const EmbeddingFailedPrefix: string := "Failed to generate embedding: "
  const CompletionFailedPrefix: string := "Failed to generate completion: "
  const StreamingFailedPrefix: string := "Streaming generation failed: "

  /** The `ollama` section of the configuration; `None` is a missing key. */
  datatype Config = Config(model: Option<string>, embeddingModel: Option<string>,
                           temperature: Option<real>, maxTokens: Option<int>)

  datatype Settings = Settings(model: string, embeddingModel: string, temperature: real, maxTokens: int)

  /** `config.get(key, default)` for each of the four keys. */
  function SettingsFrom(config: Config): (s: Settings)
    ensures config.model.Some? ==> s.model == config.model.value
    ensures config.model.None? ==> s.model == DefaultModel
    ensures config.embeddingModel.Some? ==> s.embeddingModel == config.embeddingModel.value
    ensures config.embeddingModel.None? ==> s.embeddingModel == DefaultModel
    ensures config.temperature.Some? ==> s.temperature == config.temperature.value
    ensures config.temperature.None? ==> s.temperature == DefaultTemperature
    ensures config.maxTokens.Some? ==> s.maxTokens == config.maxTokens.value
    ensures config.maxTokens.None? ==> s.maxTokens == DefaultMaxTokens
  {
    Settings(
      match config.model case Some(m) => m case None => DefaultModel,
      match config.embeddingModel case Some(m) => m case None => DefaultModel,
      match config.temperature case Some(t) => t case None => DefaultTemperature,
      match config.maxTokens case Some(n) => n case None => DefaultMaxTokens)
  }

  datatype Message = Message(role: string, content: string)

  /** The `options` of a chat request. */
  datatype ChatOptions = ChatOptions(temperature: real, numPredict: int)

  /** One piece of a streamed reply: `message` and its `content` may each be absent. */
  datatype ChunkMessage = ChunkMessage(content: Option<string>)
  datatype StreamChunk = StreamChunk(message: Option<ChunkMessage>)

  /** An entry of the model listing; its `name` key may be absent. */
  datatype ModelEntry = ModelEntry(name: Option<string>)
  /** The listing; its `models` key may be absent. */
  datatype Listing = Listing(models: Option<seq<ModelEntry>>)

  /** What the server answers: an embedding for (model, prompt), the content of a chat reply, the
      chunks of a streamed reply, and the model listing. `Failure` is a raised exception. */
  datatype Server = Server(
    embeddings: (string, string) -> Result<Vector>,
    chat: (string, seq<Message>, ChatOptions) -> Result<string>,
    chatStream: (string, seq<Message>, ChatOptions) -> Result<seq<StreamChunk>>,
    list: Result<Listing>)

  /** A vector of `n` zeros. */
  function Zeros(n: nat): (r: Vector)
    ensures |r| == n
    ensures forall k :: 0 <= k < n ==> r[k] == 0.0
    decreases n
  {
    if n == 0 then [] else Zeros(n - 1) + [0.0]
  }

  /** The content written by the user: the context and the question when there is a context. */
  function UserContent(prompt: string, context: Option<string>): string
  {
    if Truthy(context) then "Context:\n" + context.value + "\n\nQuestion: " + prompt else prompt
  }

  /** The question always ends the user content; a non-empty context comes first, after the
      "Context:" line, and is followed by a blank line and the "Question: " label. */
  lemma UserContentLayout(prompt: string, context: Option<string>)
    ensures var c := UserContent(prompt, context);
      && |prompt| <= |c| && c[|c| - |prompt|..] == prompt
      && (Truthy(context) <==> |c| > |prompt|)
      && (Truthy(context) ==>
            var n := |context.value|;
            c[..9] == "Context:\n" && c[9..9 + n] == context.value
            && c[9 + n..] == "\n\nQuestion: " + prompt)
  {
    var c := UserContent(prompt, context);
    if Truthy(context) {
      var n := |context.value|;
      assert c == "Context:\n" + (context.value + ("\n\nQuestion: " + prompt));
      assert c[9..] == context.value + ("\n\nQuestion: " + prompt);
      assert c[9..9 + n] == c[9..][..n];
      assert c[9 + n..] == c[9..][n..];
    }
  }

  /** The messages of a completion request: a system message when the system prompt is non-empty,
      then exactly one user message. */
  function Messages(prompt: string, context: Option<string>, systemPrompt: Option<string>): (ms: seq<Message>)
    ensures |ms| == (if Truthy(systemPrompt) then 2 else 1)
    ensures ms[0].role == "system" <==> Truthy(systemPrompt)
    ensures Truthy(systemPrompt) ==> ms[0] == Message("system", systemPrompt.value)
    ensures ms[|ms| - 1] == Message("user", UserContent(prompt, context))
    ensures forall k :: 0 <= k < |ms| - 1 ==> ms[k].role != "user"
  {
    (if Truthy(systemPrompt) then [Message("system", systemPrompt.value)] else [])
    + [Message("user", UserContent(prompt, context))]
  }

  /** The text a chunk of a streamed reply contributes: its content, if it has one. */
  function ChunkContent(chunk: StreamChunk): string
  {
    if chunk.message.Some? && chunk.message.value.content.Some? then chunk.message.value.content.value
    else ""
  }

  /** The streamed reply: the contents of the chunks, in order. */
  function StreamText(chunks: seq<StreamChunk>): string
    decreases |chunks|
  {
    if chunks == [] then "" else StreamText(chunks[..|chunks| - 1]) + ChunkContent(chunks[|chunks| - 1])
  }

  /** The reply to two runs of chunks is the reply to the first followed by the reply to the second. */
  lemma {:induction false} StreamTextAppend(a: seq<StreamChunk>, b: seq<StreamChunk>)
    ensures StreamText(a + b) == StreamText(a) + StreamText(b)
    decreases |b|
  {
    if b == [] {
      assert a + b == a;
    } else {
      var init := b[..|b| - 1];
      var c := ChunkContent(b[|b| - 1]);
      assert (a + b)[..|a + b| - 1] == a + init;
      assert StreamText(a + b) == StreamText(a + init) + c;
      StreamTextAppend(a, init);
      assert StreamText(b) == StreamText(init) + c;
      assert (StreamText(a) + StreamText(init)) + c == StreamText(a) + (StreamText(init) + c);
    }
  }

  /** Each chunk's content sits in the reply between the replies to the chunks before and after it. */
  lemma {:induction false} StreamTextSplit(chunks: seq<StreamChunk>, k: nat)
    requires k < |chunks|
    ensures StreamText(chunks) == StreamText(chunks[..k]) + ChunkContent(chunks[k]) + StreamText(chunks[k + 1..])
  {
    var upTo := chunks[..k] + [chunks[k]];
    assert chunks == upTo + chunks[k + 1..];
    StreamTextAppend(upTo, chunks[k + 1..]);
    assert upTo[..k] == chunks[..k];
    assert StreamText(upTo) == StreamText(chunks[..k]) + ChunkContent(chunks[k]);
  }

  /** A chunk without content changes nothing: dropping it leaves the reply as it is. */
  lemma {:induction false} StreamTextIgnores(chunks: seq<StreamChunk>, k: nat)
    requires k < |chunks|
    requires chunks[k].message.None? || chunks[k].message.value.content.None?
    ensures StreamText(chunks[..k] + chunks[k + 1..]) == StreamText(chunks)
  {
    StreamTextSplit(chunks, k);
    StreamTextAppend(chunks[..k], chunks[k + 1..]);
    assert StreamText(chunks[..k]) + "" == StreamText(chunks[..k]);
  }

  /** The names in a model listing, or `None` when some entry has no name (a `KeyError`). */
  function ModelNames(entries: seq<ModelEntry>): Option<seq<string>>
    decreases |entries|
  {
    if entries == [] then Some([])
    else
      match ModelNames(entries[..|entries| - 1])
      case None => None
      case Some(names) =>
        var last := entries[|entries| - 1];
        if last.name.None? then None else Some(names + [last.name.value])
  }

  predicate AllNamed(entries: seq<ModelEntry>)
  {
    forall i :: 0 <= i < |entries| ==> entries[i].name.Some?
  }

  /** `name` is the name of one of the entries. */
  predicate Listed(name: string, entries: seq<ModelEntry>)
  {
    exists i :: 0 <= i < |entries| && entries[i].name == Some(name)
  }

  /** The names are read exactly when every entry has one, and then they are the entries' names
      in order. */
  lemma {:induction false} ModelNamesSpec(entries: seq<ModelEntry>)
    ensures ModelNames(entries).Some? <==> AllNamed(entries)
    ensures ModelNames(entries).Some? ==>
      |ModelNames(entries).value| == |entries|
      && forall i :: 0 <= i < |entries| ==> ModelNames(entries).value[i] == entries[i].name.value
    decreases |entries|
  {
    if entries != [] {
      var init := entries[..|entries| - 1];
      ModelNamesSpec(init);
      assert AllNamed(entries) ==> AllNamed(init) by {
        if AllNamed(entries) {
          forall i | 0 <= i < |init| ensures init[i].name.Some? {
            assert init[i] == entries[i];
          }
        }
      }
      if AllNamed(init) && entries[|entries| - 1].name.Some? {
        forall i | 0 <= i < |entries| ensures entries[i].name.Some? {
          if i < |init| {
            assert entries[i] == init[i];
          }
        }
      }
    }
  }

  /** Membership in the names read from a listing is being the name of an entry. */
  lemma NameListed(entries: seq<ModelEntry>, name: string)
    requires AllNamed(entries)
    ensures ModelNames(entries).Some?
    ensures name in ModelNames(entries).value <==> Listed(name, entries)
  {
    ModelNamesSpec(entries);
    var names := ModelNames(entries).value;
    if name in names {
      var i :| 0 <= i < |names| && names[i] == name;
      assert entries[i].name == Some(name);
    }
    if Listed(name, entries) {
      var i :| 0 <= i < |entries| && entries[i].name == Some(name);
      assert names[i] == name;
    }
  }

  /** The entries of a listing, `models.get('models', [])`. */
  function Entries(listing: Listing): seq<ModelEntry>
  {
    match listing.models case Some(entries) => entries case None => []
  }

  /** The listing could be read: the server answered and every entry has a name. */
  predicate Readable(list: Result<Listing>)
  {
    list.Success? && AllNamed(Entries(list.value))
  }

  /** The models missing from a readable listing: the generation model, then the embedding
      model, each only when absent. */
  function MissingModels(model: string, embeddingModel: string, entries: seq<ModelEntry>): seq<string>
  {
    (if Listed(model, entries) then [] else [model])
    + (if Listed(embeddingModel, entries) then [] else [embeddingModel])
  }

  /** Nothing is missing exactly when both models are listed; what is missing is one of the two
      models and is not listed; when neither is listed both are reported, generation model first,
      so one name appears twice when the two settings are equal. */
  lemma MissingModelsSpec(model: string, embeddingModel: string, entries: seq<ModelEntry>)
    ensures var missing := MissingModels(model, embeddingModel, entries);
      && (missing == [] <==> Listed(model, entries) && Listed(embeddingModel, entries))
      && |missing| <= 2
      && (forall m :: m in missing ==> (m == model || m == embeddingModel) && !Listed(m, entries))
      && (model in missing <==> !Listed(model, entries))
      && (embeddingModel in missing <==> !Listed(embeddingModel, entries))
      && (!Listed(model, entries) && !Listed(embeddingModel, entries) ==> missing == [model, embeddingModel])
  {
  }

  class OllamaClient {
    const model: string
    const embeddingModel: string
    const temperature: real
    const maxTokens: int
    const server: Server
    /** How many completions have been requested from this client. */
    ghost var completionCalls: nat

    /** `OllamaClient(config)`: each setting from the configuration, or its default. */
    constructor(config: Config, server: Server)
      ensures var s := SettingsFrom(config);
        model == s.model && embeddingModel == s.embeddingModel
        && temperature == s.temperature && maxTokens == s.maxTokens
      ensures this.server == server
      ensures completionCalls == 0
    {
      var s := SettingsFrom(config);
      model := s.model;
      embeddingModel := s.embeddingModel;
      temperature := s.temperature;
      maxTokens := s.maxTokens;
      this.server := server;
      completionCalls := 0;
    }

    function Options(): ChatOptions
    {
      ChatOptions(temperature, maxTokens)
    }

    /** `generate_embedding(text)`: the server's embedding from the embedding model, or the error
        with its prefix. */
    function GenerateEmbedding(text: string): (r: Result<Vector>)
      ensures server.embeddings(embeddingModel, text).Success? <==> r.Success?
      ensures r.Success? ==> r.value == server.embeddings(embeddingModel, text).value
      ensures r.Failure? ==> r.error == EmbeddingFailedPrefix + server.embeddings(embeddingModel, text).error
    {
      match server.embeddings(embeddingModel, text)
      case Success(v) => Success(v)
      case Failure(e) => Failure(EmbeddingFailedPrefix + e)
    }

    function EmbeddingOrZero(text: string): Vector
    {
      match GenerateEmbedding(text)
      case Success(v) => v
      case Failure(_) => Zeros(FallbackDimension)
    }

    /** One vector per text, in order. */
    function Embeddings(texts: seq<string>): seq<Vector>
    {
      seq(|texts|, i requires 0 <= i < |texts| => EmbeddingOrZero(texts[i]))
    }

    /** Position `i` holds the embedding of `texts[i]` when it could be generated, and the zero
        vector of the fallback length otherwise. */
    lemma EmbeddingsSpec(texts: seq<string>)
      ensures |Embeddings(texts)| == |texts|
      ensures forall i :: 0 <= i < |texts| ==>
        (GenerateEmbedding(texts[i]).Success? ==> Embeddings(texts)[i] == GenerateEmbedding(texts[i]).value)
        && (GenerateEmbedding(texts[i]).Failure? ==>
              |Embeddings(texts)[i]| == FallbackDimension && Embeddings(texts)[i] == Zeros(FallbackDimension))
    {
    }

    /** `generate_embeddings_batch(texts)`: a failure for one text never stops the batch. */
    method GenerateEmbeddingsBatch(texts: seq<string>) returns (embeddings: seq<Vector>)
      ensures embeddings == Embeddings(texts)
    {
      embeddings := [];
      for i := 0 to |texts|
        invariant |embeddings| == i
        invariant forall k :: 0 <= k < i ==> embeddings[k] == EmbeddingOrZero(texts[k])
      {
        var embedding := GenerateEmbedding(texts[i]);
        if embedding.Success? {
          embeddings := embeddings + [embedding.value];
        } else {
          embeddings := embeddings + [Zeros(FallbackDimension)];
        }
      }
    }

    /** The message list `generate_completion` builds, appended to step by step. */
    method BuildMessages(prompt: string, context: Option<string>, systemPrompt: Option<string>)
      returns (messages: seq<Message>)
      ensures messages == Messages(prompt, context, systemPrompt)
    {
      messages := [];
      if Truthy(systemPrompt) {
        messages := messages + [Message("system", systemPrompt.value)];
      }
      if Truthy(context) {
        messages := messages + [Message("user", "Context:\n" + context.value + "\n\nQuestion: " + prompt)];
      } else {
        messages := messages + [Message("user", prompt)];
      }
    }

    /** The outcome of a streamed chat request. */
    function StreamReply(messages: seq<Message>): Result<string>
    {
      match server.chatStream(model, messages, Options())
      case Success(chunks) => Success(StreamText(chunks))
      case Failure(e) => Failure(StreamingFailedPrefix + e)
    }

    /** `_generate_streaming(messages)`: the contents of the streamed chunks, concatenated in
        order, or the error with its prefix. */
    method GenerateStreaming(messages: seq<Message>) returns (r: Result<string>)
      ensures server.chatStream(model, messages, Options()).Failure? ==>
        r == Failure(StreamingFailedPrefix + server.chatStream(model, messages, Options()).error)
      ensures server.chatStream(model, messages, Options()).Success? ==>
        r == Success(StreamText(server.chatStream(model, messages, Options()).value))
    {
      var stream := server.chatStream(model, messages, ChatOptions(temperature, maxTokens));
      if stream.Failure? {
        return Failure(StreamingFailedPrefix + stream.error);
      }
      var chunks := stream.value;
      var fullResponse := "";
      for i := 0 to |chunks|
        invariant fullResponse == StreamText(chunks[..i])
      {
        var chunk := chunks[i];
        assert chunks[..i + 1][..i] == chunks[..i];
        if chunk.message.Some? && chunk.message.value.content.Some? {
          fullResponse := fullResponse + chunk.message.value.content.value;
        } else {
          assert fullResponse == fullResponse + "";
        }
      }
      assert chunks[..|chunks|] == chunks;
      return Success(fullResponse);
    }

    /** What `generate_completion` returns: the chat reply to `Messages(...)`, streamed or not;
        any failure, including a streaming one, is wrapped with the completion prefix. */
    function Completion(prompt: string, context: Option<string>, systemPrompt: Option<string>, stream: bool)
      : (r: Result<string>)
      ensures var messages := Messages(prompt, context, systemPrompt);
        && (!stream ==> (r.Success? <==> server.chat(model, messages, Options()).Success?))
        && (!stream && r.Success? ==> r.value == server.chat(model, messages, Options()).value)
        && (stream ==> (r.Success? <==> server.chatStream(model, messages, Options()).Success?))
        && (stream && r.Success? ==> r.value == StreamText(server.chatStream(model, messages, Options()).value))
      ensures r.Failure? ==> CompletionFailedPrefix <= r.error
    {
      var messages := Messages(prompt, context, systemPrompt);
      var reply := if stream then StreamReply(messages) else server.chat(model, messages, Options());
      match reply
      case Success(text) => Success(text)
      case Failure(e) => Failure(CompletionFailedPrefix + e)
    }

    /** `generate_completion(prompt, context, system_prompt, stream)`; counts the request. */
    method GenerateCompletion(prompt: string, context: Option<string>, systemPrompt: Option<string>, stream: bool)
      returns (r: Result<string>)
      modifies this
      ensures r == Completion(prompt, context, systemPrompt, stream)
      ensures completionCalls == old(completionCalls) + 1
    {
      completionCalls := completionCalls + 1;
      var messages := BuildMessages(prompt, context, systemPrompt);
      var reply: Result<string>;
      if stream {
        reply := GenerateStreaming(messages);
      } else {
        reply := server.chat(model, messages, ChatOptions(temperature, maxTokens));
      }
      if reply.Failure? {
        return Failure(CompletionFailedPrefix + reply.error);
      }
      return Success(reply.value);
    }

    /** `check_model_available()`: the generation model is among the listed names; false when the
        listing fails or an entry has no name. */
    function CheckModelAvailable(): (ok: bool)
      ensures ok <==> Readable(server.list) && Listed(model, Entries(server.list.value))
    {
      match server.list
      case Failure(_) => false
      case Success(listing) =>
        ModelNamesSpec(Entries(listing));
        match ModelNames(Entries(listing))
        case None => false
        case Some(names) =>
          NameListed(Entries(listing), model);
          model in names
    }

    /** `check_models_available()`: which of the two models the listing lacks, in the order
        generation model, embedding model; `(false, [])` when the listing cannot be read. */
    method CheckModelsAvailable() returns (ok: bool, missing: seq<string>)
      ensures !Readable(server.list) ==> !ok && missing == []
      ensures Readable(server.list) ==> missing == MissingModels(model, embeddingModel, Entries(server.list.value))
      ensures ok <==> Readable(server.list) && missing == []
      ensures ok ==> CheckModelAvailable()
    {
      if server.list.Failure? {
        return false, [];
      }
      var entries := Entries(server.list.value);
      ModelNamesSpec(entries);
      var names := ModelNames(entries);
      if names.None? {
        return false, [];
      }
      NameListed(entries, model);
      NameListed(entries, embeddingModel);
      missing := [];
      if model !in names.value {
        missing := missing + [model];
      }
      if embeddingModel !in names.value {
        missing := missing + [embeddingModel];
      }
      MissingModelsSpec(model, embeddingModel, entries);
      ok := |missing| == 0;
    }
  }
}
