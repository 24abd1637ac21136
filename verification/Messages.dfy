/** Messages, content blocks and the provider's pairing rule. */
module Messages {
  import opened Options

  datatype Role = User | Assistant | System

  datatype InputKind = Json | Freeform

  /** A tool result holds either a string or a list of content blocks. */
  datatype Body = Plain(text: string) | Nested(inner: seq<Block>)

  /** `Reasoning` stands for every provider-managed block: thinking, redacted
      thinking, responses reasoning and web-search calls.  A call always has a
      durable execution id; a result restored from an old session may lack one. */
  datatype Block =
    | Text(text: string)
    | Image(mediaType: string, data: string)
    | Reasoning(data: string)
    | ToolCall(id: string, name: string, input: string, executionId: string, kind: InputKind)
    | ToolResult(toolUseId: string, name: string, body: Body, isError: bool,
                 execution: Option<string>, kind: InputKind)

  datatype Content = Str(text: string) | Blocks(blocks: seq<Block>)

  /** The two usage-metadata entries the history code reads; "" when absent. */
  datatype Meta = Meta(provider: string, editProtocol: string)

  datatype Message = Message(role: Role, content: Content, meta: Meta)

  const NO_META := Meta("", "")

  function ExecutionOf(b: Block): Option<string>
  {
    match b
    case ToolCall(_, _, _, e, _) => Some(e)
    case ToolResult(_, _, _, _, e, _) => e
    case _ => None
  }

  function ProviderId(b: Block): string
  {
    match b
    case ToolCall(id, _, _, _, _) => id
    case ToolResult(id, _, _, _, _, _) => id
    case _ => ""
  }

  /** Durable ids decide when both sides have one, provider ids otherwise. */
  predicate SameExecution(left: Block, right: Block)
  {
    if ExecutionOf(left).Some? && ExecutionOf(right).Some?
    then ExecutionOf(left) == ExecutionOf(right)
    else ProviderId(left) == ProviderId(right)
  }

  predicate Answers(call: Block, b: Block)
  {
    call.ToolCall? && b.ToolResult? && SameExecution(call, b)
  }

  function BlocksOf(m: Message): seq<Block>
  {
    if m.content.Blocks? then m.content.blocks else []
  }

  predicate IsUserBlocks(m: Message)
  {
    m.role.User? && m.content.Blocks?
  }

  function CallsIn(blocks: seq<Block>): (calls: seq<Block>)
    ensures forall c | c in calls :: c.ToolCall?
  {
    if blocks == [] then []
    else if blocks[0].ToolCall? then [blocks[0]] + CallsIn(blocks[1..])
    else CallsIn(blocks[1..])
  }

  lemma {:induction false} CallsInMembers(blocks: seq<Block>)
    ensures forall c :: c in CallsIn(blocks) <==> c in blocks && c.ToolCall?
  {
    if blocks != [] {
      CallsInMembers(blocks[1..]);
      assert blocks == [blocks[0]] + blocks[1..];
    }
  }

  /** The tool calls of an assistant message. */
  function Calls(m: Message): seq<Block>
  {
    if m.role.Assistant? then CallsIn(BlocksOf(m)) else []
  }

  predicate HasCalls(m: Message)
  {
    Calls(m) != []
  }

  /** The pairing check made before a history is sent: every call of an assistant
      message has a result with its provider id in the very next message. */
  predicate ValidForProvider(ms: seq<Message>)
  {
    forall i | 0 <= i < |ms| && HasCalls(ms[i]) ::
      && i + 1 < |ms|
      && IsUserBlocks(ms[i + 1])
      && ResultsCover(Calls(ms[i]), BlocksOf(ms[i + 1]))
  }

  predicate ResultsCover(calls: seq<Block>, blocks: seq<Block>)
  {
    forall c | c in calls :: exists r :: r in blocks && r.ToolResult? && r.toolUseId == ProviderId(c)
  }

  /** The results of `calls`, in call order, open the message `m`. */
  predicate AnswersInOrder(calls: seq<Block>, m: Message)
  {
    && IsUserBlocks(m)
    && |calls| <= |BlocksOf(m)|
    && forall k | 0 <= k < |calls| :: Answers(calls[k], BlocksOf(m)[k])
  }

  /** Stronger than the provider's rule in what it says about order, and stated on
      executions rather than provider ids. */
  predicate PairedInOrder(ms: seq<Message>)
  {
    forall i | 0 <= i < |ms| && HasCalls(ms[i]) ::
      i + 1 < |ms| && AnswersInOrder(Calls(ms[i]), ms[i + 1])
  }

  /** The next message, if one is needed, has a result for every call of `m`. */
  predicate Follows(m: Message, rest: seq<Message>)
  {
    HasCalls(m) ==> rest != [] && IsUserBlocks(rest[0]) && ResultsCover(Calls(m), BlocksOf(rest[0]))
  }

  lemma {:induction false} ValidCons(m: Message, rest: seq<Message>)
    ensures ValidForProvider([m] + rest) <==> ValidForProvider(rest) && Follows(m, rest)
  {
    var ms := [m] + rest;
    assert forall i | 0 <= i < |rest| :: rest[i] == ms[i + 1];
    if ValidForProvider(ms) {
      forall i | 0 <= i < |rest| && HasCalls(rest[i])
        ensures i + 1 < |rest| && IsUserBlocks(rest[i + 1]) && ResultsCover(Calls(rest[i]), BlocksOf(rest[i + 1]))
      {
        assert HasCalls(ms[i + 1]);
      }
      assert HasCalls(ms[0]) ==> Follows(m, rest);
    }
  }

  /** Calls are taken in order, each as often as it is there. */
  lemma {:induction false} CallsInApart(xs: seq<Block>, b: Block, ys: seq<Block>)
    ensures CallsIn(xs + [b] + ys) == CallsIn(xs) + (if b.ToolCall? then [b] else []) + CallsIn(ys)
  {
    var all := xs + [b] + ys;
    if xs == [] {
      assert all == [b] + ys && all[1..] == ys;
      assert [] + CallsIn(ys) == CallsIn(ys);
    } else {
      var first := if xs[0].ToolCall? then [xs[0]] else [];
      assert all[0] == xs[0] && all[1..] == xs[1..] + [b] + ys;
      CallsInApart(xs[1..], b, ys);
      assert CallsIn(xs) == first + CallsIn(xs[1..]);
    }
  }

  /** A call and a result that both know their execution go by it, whatever their provider ids;
      a result of an old session goes by its provider id. */
  lemma {:induction false} AnswersMeans(c: Block, r: Block)
    requires c.ToolCall? && r.ToolResult?
    ensures r.execution.Some? ==> (Answers(c, r) <==> r.execution.value == c.executionId)
    ensures r.execution.None? ==> (Answers(c, r) <==> r.toolUseId == c.id)
  {
  }
}
