/** backend/services/llm_service.py: the chat history goes to the inference
    engine as one streaming request, and each streamed chunk becomes one text
    fragment. The engine itself is a parameter: given the request, it yields
    the `content` field of each chunk's first-choice delta, when there is one. */
module LlmService {
  import opened Wrappers

  datatype Message = Message(role: string, content: string)

  /** The arguments of `create_chat_completion`. */
  datatype CompletionRequest = CompletionRequest(
    messages: seq<Message>, maxTokens: int, stop: seq<string>, stream: bool)

  /** The engine: the per-chunk `delta.get("content")` values of one streamed completion. */
  type Engine = CompletionRequest -> seq<Option<string>>

  const DefaultMaxTokens: int := 200

  /** The request `generate_response` sends: `stop or []` turns a missing or
      empty stop list into the empty list, and streaming is always on. */
  function Request(history: seq<Message>, maxTokens: int := DefaultMaxTokens,
                   stop: Option<seq<string>> := None): (r: CompletionRequest)
    ensures r.messages == history && r.maxTokens == maxTokens && r.stream
    ensures stop.None? ==> r.stop == []
    ensures stop.Some? ==> r.stop == stop.value
  {
    CompletionRequest(history, maxTokens, stop.GetOr([]), true)
  }

  /** One chunk's fragment: its content, or "" when the delta carries none. */
  function Fragment(delta: Option<string>): (fragment: string)
    ensures delta.Some? ==> fragment == delta.value
    ensures delta.None? ==> fragment == ""
  {
    delta.GetOr("")
  }

  /** The fragments of a stream of deltas, one per delta and in order. */
  function Fragments(deltas: seq<Option<string>>): (fragments: seq<string>)
    ensures |fragments| == |deltas|
    ensures forall i :: 0 <= i < |deltas| && deltas[i].Some? ==> fragments[i] == deltas[i].value
    ensures forall i :: 0 <= i < |deltas| && deltas[i].None? ==> fragments[i] == ""
  {
    if deltas == [] then [] else [Fragment(deltas[0])] + Fragments(deltas[1..])
  }

  /** `generate_response`: the fragments of the engine's stream for this
      request, one per chunk, which together spell the text the engine
      produced. */
  function GenerateResponse(engine: Engine, history: seq<Message>, maxTokens: int := DefaultMaxTokens,
                            stop: Option<seq<string>> := None): (fragments: seq<string>)
    ensures |fragments| == |engine(Request(history, maxTokens, stop))|
    ensures Concat(fragments) == Concat(Contents(engine(Request(history, maxTokens, stop))))
  {
    FragmentsSpellContents(engine(Request(history, maxTokens, stop)));
    Fragments(engine(Request(history, maxTokens, stop)))
  }

  /** The contents the engine produced, with the absent ones dropped. */
  function Contents(deltas: seq<Option<string>>): seq<string>
  {
    if deltas == [] then []
    else if deltas[0].Some? then [deltas[0].value] + Contents(deltas[1..])
    else Contents(deltas[1..])
  }

  /** Emitting "" for an absent content changes the number of fragments but
      not the text the client reads. */
  lemma {:induction false} FragmentsSpellContents(deltas: seq<Option<string>>)
    ensures Concat(Fragments(deltas)) == Concat(Contents(deltas))
  {
    if deltas != [] {
      FragmentsSpellContents(deltas[1..]);
      assert Fragments(deltas)[1..] == Fragments(deltas[1..]);
      if deltas[0].Some? {
        assert Contents(deltas)[1..] == Contents(deltas[1..]);
      }
    }
  }

  /** The response is exactly the engine's stream for the request built from
      the history, with the defaults of 200 tokens and no stop sequences. */
  lemma GenerateResponseDefaults(engine: Engine, history: seq<Message>)
    ensures GenerateResponse(engine, history)
         == Fragments(engine(CompletionRequest(history, 200, [], true)))
    ensures |GenerateResponse(engine, history)| == |engine(CompletionRequest(history, 200, [], true))|
  {
  }

  /** A stub engine that streams "Hel" and "lo" gives the client those two
      fragments, in that order, and the body "Hello". */
  lemma StubEngineFragments(history: seq<Message>)
    ensures GenerateResponse(_ => [Some("Hel"), Some("lo")], history) == ["Hel", "lo"]
    ensures Concat(GenerateResponse(_ => [Some("Hel"), Some("lo")], history)) == "Hello"
  {
    var fragments := GenerateResponse(_ => [Some("Hel"), Some("lo")], history);
    assert fragments == ["Hel", "lo"];
    assert Concat(["lo"]) == "lo" + Concat([]);
    assert ["Hel", "lo"][1..] == ["lo"];
    assert Concat(fragments) == "Hel" + Concat(["lo"]);
  }
}
