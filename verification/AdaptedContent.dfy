/** What an adapted history says: block by block, what is kept, rewritten or left out. */
module AdaptedContent {
  import opened Options
  import opened Messages
  import opened Adaptation

  // ---- one block at a time -----------------------------------------------------------------------

  function Blockwise(bs: seq<Block>, meta: Meta, prose: bool, origins: Origins, t: Target): seq<Block>
  {
    AdaptBlocks(bs, meta, prose, origins, t).0
  }

  /** Blocks are adapted independently of each other and keep their order. */
  lemma {:induction false} BlocksApart(xs: seq<Block>, ys: seq<Block>, meta: Meta, prose: bool, origins: Origins,
                                       t: Target)
    ensures Blockwise(xs + ys, meta, prose, origins, t) ==
            Blockwise(xs, meta, prose, origins, t) + Blockwise(ys, meta, prose, origins, t)
    decreases |ys|
  {
    if ys == [] {
      assert xs + ys == xs;
    } else {
      var front, b := ys[..|ys| - 1], ys[|ys| - 1];
      var more := AdaptBlock(b, meta, prose, origins, t).0;
      assert (xs + ys)[..|xs + ys| - 1] == xs + front && (xs + ys)[|xs + ys| - 1] == b;
      BlocksApart(xs, front, meta, prose, origins, t);
      assert Blockwise(xs + ys, meta, prose, origins, t) == Blockwise(xs + front, meta, prose, origins, t) + more;
    }
  }

  lemma {:induction false} OneAlone(b: Block, meta: Meta, prose: bool, origins: Origins, t: Target)
    ensures Blockwise([b], meta, prose, origins, t) == AdaptBlock(b, meta, prose, origins, t).0
  {
    assert [b][..0] == [] && Blockwise([], meta, prose, origins, t) == [];
    assert [] + AdaptBlock(b, meta, prose, origins, t).0 == AdaptBlock(b, meta, prose, origins, t).0;
  }

  /** The target can read what the provider thought. */
  predicate Readable(provider: string, t: Target)
  {
    t.replayable && Compatible(provider, t.provider)
  }

  /** Text: what users and tools say is kept to the letter; what an assistant says is scrubbed
      of echoed placeholders and left out if nothing else was said. */
  lemma {:induction false} TextBecomes(text: string, meta: Meta, prose: bool, origins: Origins, t: Target)
    ensures var out := Blockwise([Text(text)], meta, prose, origins, t);
      && (!prose || t.scrub(text) == text ==> out == [Text(text)])
      && (prose && t.scrub(text) != text && t.scrub(text) != "" ==> out == [Text(t.scrub(text))])
      && (prose && t.scrub(text) != text && t.scrub(text) == "" ==> out == [])
  {
    OneAlone(Text(text), meta, prose, origins, t);
  }

  lemma {:induction false} ReasoningBecomes(data: string, meta: Meta, prose: bool, origins: Origins, t: Target)
    ensures Blockwise([Reasoning(data)], meta, prose, origins, t) ==
            if Readable(meta.provider, t) then [Reasoning(data)] else []
  {
    OneAlone(Reasoning(data), meta, prose, origins, t);
  }

  lemma {:induction false} ImageBecomes(b: Block, meta: Meta, prose: bool, origins: Origins, t: Target)
    requires b.Image?
    ensures Blockwise([b], meta, prose, origins, t) == [t.image(b).0]
  {
    OneAlone(b, meta, prose, origins, t);
  }

  /** The tool protocol of a freeform call suits the target, and so does its provider. */
  predicate Suits(o: Origin, t: Target)
  {
    Compatible(o.provider, t.provider) && (t.protocol.None? || o.protocol == t.protocol)
  }

  /** A call is kept as it is, unless it is freeform and foreign: then it is mentioned. */
  lemma {:induction false} CallBecomes(c: Block, meta: Meta, prose: bool, origins: Origins, t: Target)
    requires c.ToolCall?
    ensures var out := Blockwise([c], meta, prose, origins, t);
      && (c.kind.Json? || Suits(OriginOf(c, meta), t) ==> out == [c])
      && (c.kind.Freeform? && !Suits(OriginOf(c, meta), t) ==>
            out == [Text("[Prior freeform tool call `" + c.name + "` from " +
                         (if meta.provider == "" then "unknown provider" else meta.provider) +
                         " omitted for compatibility.]")])
  {
    OneAlone(c, meta, prose, origins, t);
  }

  /** The text of a result, and whether it keeps it: hashline output is stripped for a target
      with another edit protocol. */
  predicate ForeignHashlines(r: Block, o: Origin, t: Target)
    requires r.ToolResult?
  {
    && r.kind.Json? && r.name == "read" && o.protocol == Some("hashline_v2")
    && t.protocol.Some? && t.protocol.value != "hashline_v2"
  }

  /** A result of text is kept, stripped of foreign hashlines, or reported in words. */
  lemma {:induction false} ResultBecomes(r: Block, meta: Meta, prose: bool, origins: Origins, t: Target)
    requires r.ToolResult? && r.body.Plain?
    ensures var out, o := Blockwise([r], meta, prose, origins, t), ResultOrigin(r, meta, origins);
      && ((r.kind.Json? && !ForeignHashlines(r, o, t)) || (r.kind.Freeform? && Suits(o, t)) ==> out == [r])
      && (ForeignHashlines(r, o, t) ==> out == [r.(body := Plain(t.strip(r.body.text)))])
      && (r.kind.Freeform? && !Suits(o, t) ==>
            out == [Text("[Prior `" + r.name + "` call from " +
                         (if o.provider == "" then "unknown provider" else o.provider) + " " +
                         (if r.isError then "failed" else "completed") + ": " + r.body.text + "]")])
  {
    OneAlone(r, meta, prose, origins, t);
  }

  /** A result of blocks is adapted inside, as tool output, and stays the result it was. */
  lemma {:induction false} NestedBecomes(r: Block, meta: Meta, prose: bool, origins: Origins, t: Target)
    requires ImagesOnly(t) && r.ToolResult? && r.body.Nested?
    ensures var out, o := Blockwise([r], meta, prose, origins, t), ResultOrigin(r, meta, origins);
      && (r.kind.Json? || Suits(o, t) ==>
            out == [r.(body := Nested(Blockwise(r.body.inner, meta, false, origins, t)))])
      && (r.kind.Freeform? && !Suits(o, t) ==>
            out == [Text("[Prior `" + r.name + "` call from " +
                         (if o.provider == "" then "unknown provider" else o.provider) + " " +
                         (if r.isError then "failed" else "completed") + ": " + t.markdown(r) + "]")])
  {
    OneAlone(r, meta, prose, origins, t);
    BlocksSurvive(r.body.inner, meta, false, origins, t);
    assert r.(body := Nested(r.body.inner)) == r;
  }

  /** Providers that can read each other's reasoning: each itself, and the two of OpenAI. */
  lemma {:induction false} CompatibleProviders(p: string, q: string, r: string)
    ensures p != "" ==> Compatible(p, p)
    ensures !Compatible("", q)
    ensures Compatible("openai", "openai_chatgpt") && Compatible("openai_chatgpt", "openai")
    ensures Compatible(p, q) && p != q ==> {p, q} == {"openai", "openai_chatgpt"}
    ensures Compatible(p, q) && Compatible(q, r) ==> Compatible(p, r)
  {
  }

  // ---- reasoning ------------------------------------------------------------------------------------

  function ReasoningOf(bs: seq<Block>): seq<Block>
  {
    if bs == [] then [] else (if bs[0].Reasoning? then [bs[0]] else []) + ReasoningOf(bs[1..])
  }

  lemma {:induction false} ReasoningFirst(b: Block, rest: seq<Block>)
    ensures ReasoningOf([b] + rest) == (if b.Reasoning? then [b] else []) + ReasoningOf(rest)
  {
    assert ([b] + rest)[1..] == rest;
  }

  lemma {:induction false} ReasoningAppend(xs: seq<Block>, ys: seq<Block>)
    ensures ReasoningOf(xs + ys) == ReasoningOf(xs) + ReasoningOf(ys)
    decreases |xs|
  {
    if xs == [] {
      assert xs + ys == ys;
    } else {
      var b, rest := xs[0], xs[1..];
      ReasoningAppend(rest, ys);
      ReasoningFirst(b, rest);
      ReasoningFirst(b, rest + ys);
      assert xs == [b] + rest && xs + ys == [b] + (rest + ys);
      Regrouped(if b.Reasoning? then [b] else [], ReasoningOf(rest), ReasoningOf(ys));
    }
  }

  lemma {:induction false} Regrouped(a: seq<Block>, b: seq<Block>, c: seq<Block>)
    ensures a + (b + c) == a + b + c
  {
  }

  lemma {:induction false} OneReasons(b: Block, meta: Meta, prose: bool, origins: Origins, t: Target)
    requires ImagesOnly(t)
    ensures ReasoningOf(AdaptBlock(b, meta, prose, origins, t).0) ==
            if b.Reasoning? && Readable(meta.provider, t) then [b] else []
  {
    var out := AdaptBlock(b, meta, prose, origins, t).0;
    BlockSurvives(b, meta, prose, origins, t);
    assert |out| == 1 ==> out[1..] == [];
  }

  lemma {:induction false} ReasoningSnoc(bs: seq<Block>, b: Block)
    ensures ReasoningOf(bs + [b]) == ReasoningOf(bs) + if b.Reasoning? then [b] else []
  {
    ReasoningAppend(bs, [b]);
    assert [b][1..] == [];
  }

  lemma {:induction false} BlockwiseSnoc(bs: seq<Block>, b: Block, meta: Meta, prose: bool, origins: Origins, t: Target)
    ensures Blockwise(bs + [b], meta, prose, origins, t) ==
            Blockwise(bs, meta, prose, origins, t) + AdaptBlock(b, meta, prose, origins, t).0
  {
    assert (bs + [b])[..|bs|] == bs;
  }

  /** The reasoning of the blocks goes on, all of it and in order, or none of it. */
  ghost predicate ReasoningGoes(bs: seq<Block>, meta: Meta, prose: bool, origins: Origins, t: Target)
  {
    ReasoningOf(Blockwise(bs, meta, prose, origins, t)) == if Readable(meta.provider, t) then ReasoningOf(bs) else []
  }

  lemma {:induction false} ReasoningGoesOn(bs: seq<Block>, b: Block, meta: Meta, prose: bool, origins: Origins,
                                           t: Target)
    requires ImagesOnly(t) && ReasoningGoes(bs, meta, prose, origins, t)
    ensures ReasoningGoes(bs + [b], meta, prose, origins, t)
  {
    OneReasons(b, meta, prose, origins, t);
    BlockwiseSnoc(bs, b, meta, prose, origins, t);
    ReasoningAppend(Blockwise(bs, meta, prose, origins, t), AdaptBlock(b, meta, prose, origins, t).0);
    ReasoningSnoc(bs, b);
  }

  /** A message's reasoning goes to a target that can read it, all of it and in order, and to
      no other. */
  lemma {:induction false} ReasoningSurvives(bs: seq<Block>, meta: Meta, prose: bool, origins: Origins, t: Target)
    requires ImagesOnly(t)
    ensures ReasoningGoes(bs, meta, prose, origins, t)
    decreases |bs|
  {
    if bs != [] {
      var front, b := bs[..|bs| - 1], bs[|bs| - 1];
      ReasoningSurvives(front, meta, prose, origins, t);
      ReasoningGoesOn(front, b, meta, prose, origins, t);
      assert front + [b] == bs;
    }
  }

  lemma {:induction false} SomeReasoning(bs: seq<Block>, b: Block)
    requires b in bs && b.Reasoning?
    ensures ReasoningOf(bs) != []
  {
    if bs[0] != b {
      SomeReasoning(bs[1..], b);
    }
  }

  lemma {:induction false} FromOneMessage(ms: seq<Message>, origins: Origins, t: Target, now: Message)
    returns (m: Message)
    requires now in AdaptAll(ms, origins, t)
    ensures m in ms && now in AdaptMessage(m, origins, t)
  {
    var n := |ms| - 1;
    if now in AdaptMessage(ms[n], origins, t) {
      m := ms[n];
    } else {
      m := FromOneMessage(ms[..n], origins, t, now);
    }
  }

  lemma {:induction false} ReasoningIsReadable(m: Message, origins: Origins, t: Target, now: Message, b: Block)
    requires ImagesOnly(t) && now in AdaptMessage(m, origins, t) && b in BlocksOf(now) && b.Reasoning?
    ensures Readable(now.meta.provider, t)
  {
    MessageBecomes(m, origins, t);
    if m.content.Blocks? {
      ReasoningSurvives(m.content.blocks, m.meta, m.role.Assistant?, origins, t);
      SomeReasoning(BlocksOf(now), b);
    }
  }

  /** Whatever the history: a message of the adapted one that holds reasoning comes from a
      provider whose reasoning the target can read. */
  lemma {:induction false} NoForeignReasoning(ms: seq<Message>, t: Target, now: Message, b: Block)
    requires ImagesOnly(t) && now in Adapted(ms, t) && b in BlocksOf(now) && b.Reasoning?
    ensures Readable(now.meta.provider, t)
  {
    var m := FromOneMessage(ms, AllOrigins(ms), t, now);
    ReasoningIsReadable(m, AllOrigins(ms), t, now, b);
  }

  // ---- nothing to adapt --------------------------------------------------------------------------------

  /** The target takes blocks as they are. */
  ghost predicate Transparent(t: Target)
  {
    && t.replayable
    && (forall b :: t.image(b) == (b, false))
    && (forall text :: t.scrub(text) == text && t.strip(text) == text)
  }

  /** The target can read all reasoning and keeps all freeform calls and results, also
      inside tool results. */
  predicate Native(bs: seq<Block>, meta: Meta, origins: Origins, t: Target)
    decreases bs
  {
    forall k | 0 <= k < |bs| :: NativeBlock(bs[k], meta, origins, t)
  }

  predicate NativeBlock(b: Block, meta: Meta, origins: Origins, t: Target)
    decreases b
  {
    && (b.Reasoning? ==> Compatible(meta.provider, t.provider))
    && (b.ToolCall? ==> CallKept(b, meta, t))
    && (b.ToolResult? ==> ResultKept(b, meta, origins, t))
    && (b.ToolResult? && b.body.Nested? ==> Native(b.body.inner, meta, origins, t))
  }

  lemma {:induction false} BlockStays(b: Block, meta: Meta, prose: bool, origins: Origins, t: Target)
    requires Transparent(t) && NativeBlock(b, meta, origins, t)
    ensures AdaptBlock(b, meta, prose, origins, t).0 == [b]
    decreases b
  {
    if b.ToolResult? && b.body.Nested? {
      BlocksStay(b.body.inner, meta, false, origins, t);
    }
  }

  lemma {:induction false} BlocksStay(bs: seq<Block>, meta: Meta, prose: bool, origins: Origins, t: Target)
    requires Transparent(t) && Native(bs, meta, origins, t)
    ensures Blockwise(bs, meta, prose, origins, t) == bs
    decreases bs
  {
    if bs != [] {
      var front, b := bs[..|bs| - 1], bs[|bs| - 1];
      assert forall k | 0 <= k < |front| :: front[k] == bs[k];
      BlocksStay(front, meta, prose, origins, t);
      BlockStays(b, meta, prose, origins, t);
      assert bs == front + [b];
    }
  }

  lemma {:induction false} MessageStays(m: Message, origins: Origins, t: Target)
    requires Transparent(t) && Native(BlocksOf(m), m.meta, origins, t)
    ensures AdaptMessage(m, origins, t) == [m]
  {
    if m.content.Blocks? {
      BlocksStay(m.content.blocks, m.meta, m.role.Assistant?, origins, t);
      assert m.(content := Blocks(m.content.blocks)) == m;
    }
  }

  ghost predicate AllNative(ms: seq<Message>, origins: Origins, t: Target)
  {
    forall i: nat | i < |ms| :: Native(BlocksOf(ms[i]), ms[i].meta, origins, t)
  }

  lemma {:induction false} MessagesStay(ms: seq<Message>, origins: Origins, t: Target)
    requires Transparent(t) && AllNative(ms, origins, t)
    ensures AdaptAll(ms, origins, t) == ms
  {
    if ms != [] {
      var m, rest := ms[0], ms[1..];
      assert forall i: nat | i < |rest| :: rest[i] == ms[i + 1];
      MessagesStay(rest, origins, t);
      MessageStays(m, origins, t);
      assert ms == [m] + rest;
      AdaptAllCons(m, rest, origins, t);
    }
  }

  /** A history is handed on as it is to a target that takes its blocks as they are. */
  lemma {:induction false} NothingToAdapt(ms: seq<Message>, t: Target)
    requires Transparent(t) && AllNative(ms, AllOrigins(ms), t)
    ensures Adapted(ms, t) == ms
  {
    MessagesStay(ms, AllOrigins(ms), t);
  }

  // ---- whole messages ------------------------------------------------------------------------------------

  /** A message of plain text is handed on; any other holds its blocks adapted, and is left out if
      it had some and has none left. */
  lemma {:induction false} MessageBecomes(m: Message, origins: Origins, t: Target)
    requires ImagesOnly(t)
    ensures AdaptMessage(m, origins, t) ==
      if m.content.Str? then [m]
      else
        var out := Blockwise(m.content.blocks, m.meta, m.role.Assistant?, origins, t);
        if out == [] && m.content.blocks != [] then []
        else [Message(m.role, Blocks(out), m.meta)]
  {
    if m.content.Blocks? {
      BlocksSurvive(m.content.blocks, m.meta, m.role.Assistant?, origins, t);
    }
  }

  // ---- where a call comes from ------------------------------------------------------------------------------

  /** Provider and edit protocol are those recorded with the message; without a recorded protocol
      the patch tool tells it. */
  lemma {:induction false} OriginMeans(b: Block, meta: Meta)
    requires b.ToolCall? || b.ToolResult?
    ensures OriginOf(b, meta).provider == meta.provider
    ensures meta.editProtocol != "" ==> OriginOf(b, meta).protocol == Some(meta.editProtocol)
    ensures meta.editProtocol == "" && b.name == "apply_patch" ==>
      OriginOf(b, meta).protocol == Some("codex_apply_patch")
    ensures meta.editProtocol == "" && b.name != "apply_patch" ==> OriginOf(b, meta).protocol == None
  {
  }

  /** The calls with provider id `id`, in order, with what is recorded with their messages. */
  ghost function Uses(ms: seq<Message>, id: string): seq<Origin>
  {
    if ms == [] then [] else Uses(ms[..|ms| - 1], id) + UsesIn(BlocksOf(ms[|ms| - 1]), ms[|ms| - 1].meta, id)
  }

  ghost function UsesIn(bs: seq<Block>, meta: Meta, id: string): seq<Origin>
  {
    if bs == [] then []
    else
      var b := bs[|bs| - 1];
      UsesIn(bs[..|bs| - 1], meta, id) + if b.ToolCall? && b.id == id then [OriginOf(b, meta)] else []
  }

  lemma {:induction false} RecordsLast(origins: Origins, bs: seq<Block>, meta: Meta, id: string)
    ensures var r, uses := Record(origins, bs, meta), UsesIn(bs, meta, id);
      if uses == [] then (id in r <==> id in origins) && (id in r ==> r[id] == origins[id])
      else id in r && r[id] == uses[|uses| - 1]
  {
    if bs != [] {
      RecordsLast(origins, bs[..|bs| - 1], meta, id);
    }
  }

  lemma {:induction false} OneMoreMessage(ms: seq<Message>, m: Message, id: string)
    ensures Uses(ms + [m], id) == Uses(ms, id) + UsesIn(BlocksOf(m), m.meta, id)
    ensures AllOrigins(ms + [m]) == Record(AllOrigins(ms), BlocksOf(m), m.meta)
  {
    assert (ms + [m])[..|ms|] == ms;
  }

  /** What is recorded for the id is its last use. */
  ghost predicate RecordedLast(origins: Origins, uses: seq<Origin>, id: string)
  {
    if uses == [] then id !in origins else id in origins && origins[id] == uses[|uses| - 1]
  }

  lemma {:induction false} RecordOn(origins: Origins, uses: seq<Origin>, bs: seq<Block>, meta: Meta, id: string)
    requires RecordedLast(origins, uses, id)
    ensures RecordedLast(Record(origins, bs, meta), uses + UsesIn(bs, meta, id), id)
  {
    RecordsLast(origins, bs, meta, id);
    var here := UsesIn(bs, meta, id);
    assert here == [] ==> uses + here == uses;
  }

  lemma {:induction false} LastUseSnoc(ms: seq<Message>, m: Message, id: string)
    requires RecordedLast(AllOrigins(ms), Uses(ms, id), id)
    ensures RecordedLast(AllOrigins(ms + [m]), Uses(ms + [m], id), id)
  {
    OneMoreMessage(ms, m, id);
    RecordOn(AllOrigins(ms), Uses(ms, id), BlocksOf(m), m.meta, id);
  }

  /** A result goes by the last call with its id, wherever in the history that is, and by its own
      message if there is none. */
  lemma {:induction false} LastUseCounts(ms: seq<Message>, id: string)
    ensures RecordedLast(AllOrigins(ms), Uses(ms, id), id)
    decreases |ms|
  {
    if ms != [] {
      var front, m := ms[..|ms| - 1], ms[|ms| - 1];
      LastUseCounts(front, id);
      LastUseSnoc(front, m, id);
      assert front + [m] == ms;
    }
  }
}
