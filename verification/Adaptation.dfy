/** Adapting a history to the provider that is about to receive it. */
module Adaptation {
  import opened Options
  import opened Messages

  /** Where a call came from. */
  datatype Origin = Origin(provider: string, protocol: Option<string>)

  /** The receiving side.  Image conversion, placeholder scrubbing, hashline stripping
      and rendering are foreign code. */
  datatype Target = Target(
    provider: string,
    protocol: Option<string>,
    replayable: bool,
    image: Block -> (Block, bool),
    scrub: string -> string,
    strip: string -> string,
    markdown: Block -> string)

  /** An image becomes another image or a text, and is reported when it changes. */
  ghost predicate ImagesOnly(t: Target)
  {
    forall b: Block | b.Image? :: (t.image(b).0.Image? || t.image(b).0.Text?) && (t.image(b).1 || t.image(b).0 == b)
  }

  predicate Compatible(source: string, target: string)
  {
    source != "" && (source == target || {source, target} <= {"openai", "openai_chatgpt"})
  }

  predicate Preserve(o: Origin, t: Target)
  {
    (t.protocol.Some? ==> o.protocol == t.protocol) && Compatible(o.provider, t.provider)
  }

  /** Sessions without protocol metadata are recognised by the tool's name. */
  function SourceProtocol(name: string, meta: Meta): Option<string>
  {
    if meta.editProtocol != "" then Some(meta.editProtocol)
    else if name == "apply_patch" then Some("codex_apply_patch")
    else None
  }

  function OriginOf(b: Block, meta: Meta): Origin
    requires b.ToolCall? || b.ToolResult?
  {
    Origin(meta.provider, SourceProtocol(b.name, meta))
  }

  type Origins = map<string, Origin>

  /** A result goes by its call's origin where that is recorded. */
  function ResultOrigin(b: Block, meta: Meta, origins: Origins): Origin
    requires b.ToolResult?
  {
    if b.toolUseId in origins then origins[b.toolUseId] else OriginOf(b, meta)
  }

  predicate CallKept(c: Block, meta: Meta, t: Target)
    requires c.ToolCall?
  {
    c.kind.Json? || Preserve(OriginOf(c, meta), t)
  }

  predicate ResultKept(r: Block, meta: Meta, origins: Origins, t: Target)
    requires r.ToolResult?
  {
    r.kind.Json? || Preserve(ResultOrigin(r, meta, origins), t)
  }

  function Named(source: string): string
  {
    if source == "" then "unknown provider" else source
  }

  function CallNote(c: Block, source: string): Block
    requires c.ToolCall?
  {
    Text("[Prior freeform tool call `" + c.name + "` from " + Named(source) + " omitted for compatibility.]")
  }

  function ResultNote(r: Block, source: string, t: Target): Block
    requires r.ToolResult?
  {
    var content := if r.body.Plain? then r.body.text else t.markdown(r);
    var status := if r.isError then "failed" else "completed";
    Text("[Prior `" + r.name + "` call from " + Named(source) + " " + status + ": " + content + "]")
  }

  // ---- blocks ------------------------------------------------------------------------------------

  predicate StripsHashlines(r: Block, meta: Meta, origins: Origins, t: Target)
    requires r.ToolResult?
  {
    && r.name == "read" && ResultOrigin(r, meta, origins).protocol == Some("hashline_v2")
    && t.protocol.Some? && t.protocol != Some("hashline_v2")
  }

  /** What one block becomes, and whether that is a change.  `prose` marks the text of
      an assistant message. */
  function AdaptBlock(b: Block, meta: Meta, prose: bool, origins: Origins, t: Target): (seq<Block>, bool)
    decreases b
  {
    match b
    case Image(_, _) => ([t.image(b).0], t.image(b).1)
    case Reasoning(_) => if Compatible(meta.provider, t.provider) && t.replayable then ([b], false) else ([], true)
    case ToolCall(_, _, _, _, _) => if CallKept(b, meta, t) then ([b], false) else ([CallNote(b, meta.provider)], true)
    case ToolResult(_, _, body, _, _, _) =>
      if !ResultKept(b, meta, origins, t) then
        ([ResultNote(b, ResultOrigin(b, meta, origins).provider, t)], true)
      else (
        match body
        case Plain(text) =>
          if b.kind.Json? && StripsHashlines(b, meta, origins, t) then ([b.(body := Plain(t.strip(text)))], true)
          else ([b], false)
        case Nested(inner) =>
          var (adapted, changed) := AdaptBlocks(inner, meta, false, origins, t);
          if changed then ([b.(body := Nested(adapted))], true) else ([b], false)
      )
    case Text(text) =>
      if !prose || t.scrub(text) == text then ([b], false)
      else if t.scrub(text) != "" then ([Text(t.scrub(text))], true)
      else ([], true)
  }

  function AdaptBlocks(bs: seq<Block>, meta: Meta, prose: bool, origins: Origins, t: Target): (seq<Block>, bool)
    decreases bs
  {
    if bs == [] then ([], false)
    else
      var (before, changed) := AdaptBlocks(bs[..|bs| - 1], meta, prose, origins, t);
      var (blocks, here) := AdaptBlock(bs[|bs| - 1], meta, prose, origins, t);
      (before + blocks, changed || here)
  }

  /** The accumulator loop over the blocks of a message or of a tool result. */
  method AdaptContentBlocks(bs: seq<Block>, meta: Meta, prose: bool, origins: Origins, t: Target)
    returns (adapted: seq<Block>, changed: bool)
    ensures (adapted, changed) == AdaptBlocks(bs, meta, prose, origins, t)
    decreases bs
  {
    adapted, changed := [], false;
    for k := 0 to |bs|
      invariant (adapted, changed) == AdaptBlocks(bs[..k], meta, prose, origins, t)
    {
      var b := bs[k];
      assert bs[..k + 1][..k] == bs[..k];
      ghost var was, wasChanged := adapted, changed;
      if b.Image? {
        adapted := adapted + [t.image(b).0];
        changed := changed || t.image(b).1;
      } else if b.Reasoning? {
        if Compatible(meta.provider, t.provider) && t.replayable {
          adapted := adapted + [b];
        } else {
          changed := true;
        }
      } else if b.ToolCall? {
        if CallKept(b, meta, t) {
          adapted := adapted + [b];
        } else {
          adapted, changed := adapted + [CallNote(b, meta.provider)], true;
        }
      } else if b.ToolResult? && !ResultKept(b, meta, origins, t) {
        adapted, changed := adapted + [ResultNote(b, ResultOrigin(b, meta, origins).provider, t)], true;
      } else if b.ToolResult? && b.body.Nested? {
        var inner, innerChanged := AdaptContentBlocks(b.body.inner, meta, false, origins, t);
        adapted := adapted + [if innerChanged then b.(body := Nested(inner)) else b];
        changed := changed || innerChanged;
      } else if b.ToolResult? && b.kind.Json? && StripsHashlines(b, meta, origins, t) {
        adapted, changed := adapted + [b.(body := Plain(t.strip(b.body.text)))], true;
      } else if b.Text? && prose && t.scrub(b.text) != b.text {
        if t.scrub(b.text) != "" {
          adapted := adapted + [Text(t.scrub(b.text))];
        }
        changed := true;
      } else {
        adapted := adapted + [b];
      }
      assert adapted == was + AdaptBlock(b, meta, prose, origins, t).0;
      assert changed == (wasChanged || AdaptBlock(b, meta, prose, origins, t).1);
    }
    assert bs[..|bs|] == bs;
  }

  // ---- what survives in a message --------------------------------------------------------------------

  predicate HasResult(bs: seq<Block>, id: string)
  {
    exists r :: r in bs && r.ToolResult? && r.toolUseId == id
  }

  predicate HasKeptResult(bs: seq<Block>, id: string, meta: Meta, origins: Origins, t: Target)
  {
    exists r :: r in bs && r.ToolResult? && r.toolUseId == id && ResultKept(r, meta, origins, t)
  }

  predicate HasKeptCall(bs: seq<Block>, c: Block, meta: Meta, t: Target)
  {
    c in bs && c.ToolCall? && CallKept(c, meta, t)
  }

  lemma {:induction false} BlockSurvives(b: Block, meta: Meta, prose: bool, origins: Origins, t: Target)
    requires ImagesOnly(t)
    ensures var (out, changed) := AdaptBlock(b, meta, prose, origins, t);
      && |out| <= 1 && (!changed ==> out == [b])
      && (b.ToolCall? || b.ToolResult? ==> |out| == 1)
      && (|out| == 1 && out[0].ToolCall? ==> out[0] == b && CallKept(b, meta, t))
      && (b.ToolCall? && CallKept(b, meta, t) ==> out == [b])
      && (|out| == 1 && out[0].ToolResult? ==> b.ToolResult? && ResultKept(b, meta, origins, t))
      && (b.ToolResult? && ResultKept(b, meta, origins, t) ==> out[0].ToolResult? && out[0].toolUseId == b.toolUseId)
  {
  }

  ghost predicate Survive(bs: seq<Block>, out: seq<Block>, meta: Meta, origins: Origins, t: Target)
  {
    && (forall c: Block :: HasKeptCall(bs, c, meta, t) <==> c in out && c.ToolCall?)
    && (forall id :: HasKeptResult(bs, id, meta, origins, t) <==> HasResult(out, id))
  }

  lemma {:induction false} SurviveStep(bs: seq<Block>, out: seq<Block>, b: Block, more: seq<Block>, meta: Meta,
                                       prose: bool, origins: Origins, t: Target)
    requires ImagesOnly(t) && Survive(bs, out, meta, origins, t) && more == AdaptBlock(b, meta, prose, origins, t).0
    ensures Survive(bs + [b], out + more, meta, origins, t)
  {
    BlockSurvives(b, meta, prose, origins, t);
    forall c: Block ensures HasKeptCall(bs + [b], c, meta, t) <==> c in out + more && c.ToolCall? {
      assert HasKeptCall(bs + [b], c, meta, t) <==>
             HasKeptCall(bs, c, meta, t) || (c == b && HasKeptCall([b], c, meta, t));
    }
    forall id ensures HasKeptResult(bs + [b], id, meta, origins, t) <==> HasResult(out + more, id) {
      KeptResultAppend(bs, b, id, meta, origins, t);
      ResultAppend(out, more, id);
      if HasKeptResult([b], id, meta, origins, t) {
        assert more[0] in more;
      }
      if HasResult(more, id) {
        assert b in [b];
      }
    }
  }

  lemma {:induction false} KeptResultAppend(bs: seq<Block>, b: Block, id: string, meta: Meta, origins: Origins,
                                            t: Target)
    ensures HasKeptResult(bs + [b], id, meta, origins, t) <==>
            HasKeptResult(bs, id, meta, origins, t) || HasKeptResult([b], id, meta, origins, t)
  {
    assert forall r :: r in bs + [b] <==> r in bs || r in [b];
  }

  lemma {:induction false} ResultAppend(bs: seq<Block>, more: seq<Block>, id: string)
    ensures HasResult(bs + more, id) <==> HasResult(bs, id) || HasResult(more, id)
  {
    assert forall r :: r in bs + more <==> r in bs || r in more;
  }

  /** A message keeps exactly the calls and the result ids that are kept; it is empty
      only if it never had any; and without a reported change it is the same. */
  lemma {:induction false} BlocksSurvive(bs: seq<Block>, meta: Meta, prose: bool, origins: Origins, t: Target)
    requires ImagesOnly(t)
    ensures var (out, changed) := AdaptBlocks(bs, meta, prose, origins, t);
      && Survive(bs, out, meta, origins, t)
      && (!changed ==> out == bs)
      && (out == [] ==> forall b | b in bs :: !b.ToolCall? && !b.ToolResult?)
  {
    if bs != [] {
      var front, b := bs[..|bs| - 1], bs[|bs| - 1];
      assert bs == front + [b];
      BlocksSurvive(front, meta, prose, origins, t);
      BlockSurvives(b, meta, prose, origins, t);
      SurviveStep(front, AdaptBlocks(front, meta, prose, origins, t).0, b,
                  AdaptBlock(b, meta, prose, origins, t).0, meta, prose, origins, t);
    }
  }

  // ---- histories -------------------------------------------------------------------------------------

  /** A message is passed on, rewritten, or dropped when it has nothing left. */
  function AdaptMessage(m: Message, origins: Origins, t: Target): seq<Message>
  {
    if m.content.Str? then [m]
    else
      var (out, changed) := AdaptBlocks(m.content.blocks, m.meta, m.role.Assistant?, origins, t);
      if !changed then [m]
      else if out == [] then []
      else [m.(content := Blocks(out))]
  }

  /** Adapting the message reports a change. */
  predicate Changes(m: Message, origins: Origins, t: Target)
  {
    m.content.Blocks? && AdaptBlocks(m.content.blocks, m.meta, m.role.Assistant?, origins, t).1
  }

  function AdaptAll(ms: seq<Message>, origins: Origins, t: Target): seq<Message>
  {
    if ms == [] then [] else AdaptAll(ms[..|ms| - 1], origins, t) + AdaptMessage(ms[|ms| - 1], origins, t)
  }

  function Record(origins: Origins, bs: seq<Block>, meta: Meta): Origins
  {
    if bs == [] then origins
    else
      var before, b := Record(origins, bs[..|bs| - 1], meta), bs[|bs| - 1];
      if b.ToolCall? then before[b.id := OriginOf(b, meta)] else before
  }

  /** The origin of every call by provider id; of calls that share an id, the last wins. */
  function AllOrigins(ms: seq<Message>): Origins
  {
    if ms == [] then map[]
    else Record(AllOrigins(ms[..|ms| - 1]), BlocksOf(ms[|ms| - 1]), ms[|ms| - 1].meta)
  }

  function Adapted(ms: seq<Message>, t: Target): seq<Message>
  {
    AdaptAll(ms, AllOrigins(ms), t)
  }

  method RecordOrigins(ms: seq<Message>) returns (origins: Origins)
    ensures origins == AllOrigins(ms)
  {
    origins := map[];
    for i := 0 to |ms|
      invariant origins == AllOrigins(ms[..i])
    {
      assert ms[..i + 1][..i] == ms[..i];
      var bs := BlocksOf(ms[i]);
      ghost var was := origins;
      for k := 0 to |bs|
        invariant origins == Record(was, bs[..k], ms[i].meta)
      {
        assert bs[..k + 1][..k] == bs[..k];
        if bs[k].ToolCall? {
          origins := origins[bs[k].id := OriginOf(bs[k], ms[i].meta)];
        }
      }
      assert bs[..|bs|] == bs;
    }
    assert ms[..|ms|] == ms;
  }

  /** When nothing changed the very same history is handed on. */
  method AdaptHistory(ms: seq<Message>, t: Target) returns (r: seq<Message>)
    ensures r == Adapted(ms, t)
  {
    var origins := RecordOrigins(ms);
    var result: seq<Message>, changedAny := [], false;
    for i := 0 to |ms|
      invariant result == AdaptAll(ms[..i], origins, t)
      invariant !changedAny ==> result == ms[..i]
    {
      var out, changed := AdaptOne(ms[i], origins, t);
      AdaptAllNext(ms, i, origins, t);
      result := result + out;
      changedAny := changedAny || changed;
    }
    assert ms[..|ms|] == ms;
    return if changedAny then result else ms;
  }

  lemma {:induction false} AdaptAllNext(ms: seq<Message>, i: nat, origins: Origins, t: Target)
    requires i < |ms|
    ensures AdaptAll(ms[..i + 1], origins, t) == AdaptAll(ms[..i], origins, t) + AdaptMessage(ms[i], origins, t)
    ensures ms[..i + 1] == ms[..i] + [ms[i]]
  {
    assert ms[..i + 1][..i] == ms[..i];
  }

  /** One message of the loop: passed on, rewritten or dropped. */
  method AdaptOne(m: Message, origins: Origins, t: Target) returns (out: seq<Message>, changed: bool)
    ensures out == AdaptMessage(m, origins, t) && (!changed ==> out == [m])
    ensures changed <==> Changes(m, origins, t)
  {
    if m.content.Str? {
      return [m], false;
    }
    var adapted;
    adapted, changed := AdaptContentBlocks(m.content.blocks, m.meta, m.role.Assistant?, origins, t);
    if changed && adapted == [] {
      out := [];
    } else if changed {
      out := [m.(content := Blocks(adapted))];
    } else {
      out := [m];
    }
  }

  // ---- pairing is preserved -----------------------------------------------------------------------------

  lemma {:induction false} MessageSurvives(m: Message, origins: Origins, t: Target)
    requires ImagesOnly(t)
    ensures var out := AdaptMessage(m, origins, t);
      && |out| <= 1
      && (out == [] ==> forall b | b in BlocksOf(m) :: !b.ToolCall? && !b.ToolResult?)
      && (out != [] ==>
          && out[0].role == m.role && out[0].meta == m.meta && out[0].content.Blocks? == m.content.Blocks?
          && Survive(BlocksOf(m), BlocksOf(out[0]), m.meta, origins, t))
  {
    if m.content.Blocks? {
      BlocksSurvive(m.content.blocks, m.meta, m.role.Assistant?, origins, t);
    }
  }

  /** Messages are adapted one by one, in order. */
  lemma {:induction false} AdaptAllCons(m: Message, rest: seq<Message>, origins: Origins, t: Target)
    ensures AdaptAll([m] + rest, origins, t) == AdaptMessage(m, origins, t) + AdaptAll(rest, origins, t)
    decreases |rest|
  {
    var ms := [m] + rest;
    if rest == [] {
      assert ms[..0] == [];
    } else {
      assert ms[..|ms| - 1] == [m] + rest[..|rest| - 1];
      AdaptAllCons(m, rest[..|rest| - 1], origins, t);
    }
  }

  /** Each call that is kept has a result in the next message that is kept. */
  predicate PairSurvives(m: Message, next: Message, origins: Origins, t: Target)
  {
    forall c | c in Calls(m) && CallKept(c, m.meta, t) ::
      HasKeptResult(BlocksOf(next), ProviderId(c), next.meta, origins, t)
  }

  predicate PairsSurvive(ms: seq<Message>, origins: Origins, t: Target)
  {
    |ms| < 2 || (PairSurvives(ms[0], ms[1], origins, t) && PairsSurvive(ms[1..], origins, t))
  }

  lemma {:induction false} KeptCalls(m: Message, origins: Origins, t: Target, c: Block)
    requires ImagesOnly(t) && AdaptMessage(m, origins, t) != []
    ensures c in Calls(AdaptMessage(m, origins, t)[0]) <==> c in Calls(m) && CallKept(c, m.meta, t)
  {
    var out := AdaptMessage(m, origins, t)[0];
    MessageSurvives(m, origins, t);
    CallsInMembers(BlocksOf(m));
    CallsInMembers(BlocksOf(out));
    assert HasKeptCall(BlocksOf(m), c, m.meta, t) <==> c in BlocksOf(out) && c.ToolCall?;
  }

  lemma {:induction false} FollowsIff(m: Message, rest: seq<Message>, origins: Origins, t: Target)
    requires ImagesOnly(t) && Follows(m, rest) && rest != []
    ensures AdaptMessage(m, origins, t) == [] ==> PairSurvives(m, rest[0], origins, t)
    ensures AdaptMessage(m, origins, t) != [] ==>
      (Follows(AdaptMessage(m, origins, t)[0], AdaptAll(rest, origins, t)) <==> PairSurvives(m, rest[0], origins, t))
  {
    MessageSurvives(m, origins, t);
    CallsInMembers(BlocksOf(m));
    var out := AdaptMessage(m, origins, t);
    if out != [] {
      forall c ensures c in Calls(out[0]) <==> c in Calls(m) && CallKept(c, m.meta, t) {
        KeptCalls(m, origins, t, c);
      }
      if HasCalls(m) {
        AnswerStays(m, rest, origins, t);
      }
      assert HasCalls(out[0]) ==> Calls(out[0])[0] in Calls(out[0]);
    }
  }

  /** The message after a call-bearing one has a result, so it is not dropped. */
  lemma {:induction false} AnswerStays(m: Message, rest: seq<Message>, origins: Origins, t: Target)
    requires ImagesOnly(t) && Follows(m, rest) && HasCalls(m)
    ensures var after := AdaptAll(rest, origins, t);
      && after != [] && IsUserBlocks(after[0])
      && forall id ::
           HasKeptResult(BlocksOf(rest[0]), id, rest[0].meta, origins, t) <==> HasResult(BlocksOf(after[0]), id)
  {
    assert Calls(m)[0] in Calls(m);
    assert exists r :: r in BlocksOf(rest[0]) && r.ToolResult?;
    MessageSurvives(rest[0], origins, t);
    assert rest == [rest[0]] + rest[1..];
    AdaptAllCons(rest[0], rest[1..], origins, t);
  }

  lemma {:induction false} AdaptAllValidIff(ms: seq<Message>, origins: Origins, t: Target)
    requires ImagesOnly(t) && ValidForProvider(ms)
    ensures ValidForProvider(AdaptAll(ms, origins, t)) <==> PairsSurvive(ms, origins, t)
  {
    if ms != [] {
      var m, rest := ms[0], ms[1..];
      assert ms == [m] + rest;
      ValidCons(m, rest);
      AdaptAllCons(m, rest, origins, t);
      AdaptAllValidIff(rest, origins, t);
      var out, after := AdaptMessage(m, origins, t), AdaptAll(rest, origins, t);
      MessageSurvives(m, origins, t);
      if out != [] {
        assert out == [out[0]];
        ValidCons(out[0], after);
      } else {
        assert out + after == after;
      }
      if rest != [] {
        FollowsIff(m, rest, origins, t);
      } else {
        NoCallsLeft(m, origins, t);
      }
    }
  }

  lemma {:induction false} NoCallsLeft(m: Message, origins: Origins, t: Target)
    requires ImagesOnly(t) && !HasCalls(m)
    ensures forall out | out in AdaptMessage(m, origins, t) :: !HasCalls(out)
  {
    forall out | out in AdaptMessage(m, origins, t) ensures !HasCalls(out) {
      if HasCalls(out) {
        MessageSurvives(m, origins, t);
        KeptCalls(m, origins, t, Calls(out)[0]);
      }
    }
  }

  /** A valid history stays valid exactly when every kept call still has a kept result. */
  lemma {:induction false} AdaptedIsValidIff(ms: seq<Message>, t: Target)
    requires ImagesOnly(t) && ValidForProvider(ms)
    ensures ValidForProvider(Adapted(ms, t)) <==> PairsSurvive(ms, AllOrigins(ms), t)
  {
    AdaptAllValidIff(ms, AllOrigins(ms), t);
  }

  // ---- when kept calls keep their results -------------------------------------------------------------

  predicate IsCall(bs: seq<Block>, c: Block)
  {
    c in bs && c.ToolCall?
  }

  /** Calls that share a provider id come from the same provider and edit protocol; with
      unique ids this is no condition. */
  ghost predicate Agreed(ms: seq<Message>)
  {
    forall i, j, b, c | 0 <= i < |ms| && 0 <= j < |ms| && IsCall(BlocksOf(ms[i]), b) && IsCall(BlocksOf(ms[j]), c) ::
      b.id == c.id ==> OriginOf(b, ms[i].meta) == OriginOf(c, ms[j].meta)
  }

  ghost predicate UniqueIds(ms: seq<Message>)
  {
    forall i, j, b, c | 0 <= i < |ms| && 0 <= j < |ms| && IsCall(BlocksOf(ms[i]), b) && IsCall(BlocksOf(ms[j]), c) ::
      b.id == c.id ==> i == j && b == c
  }

  lemma {:induction false} UniqueIdsAgree(ms: seq<Message>)
    requires UniqueIds(ms)
    ensures Agreed(ms)
  {
  }

  predicate IsResult(bs: seq<Block>, r: Block)
  {
    r in bs && r.ToolResult?
  }

  /** A result has the input kind of its call. */
  ghost predicate KindsMatch(ms: seq<Message>)
  {
    forall i, j, c, r | 0 <= i < |ms| && 0 <= j < |ms| && IsCall(BlocksOf(ms[i]), c) && IsResult(BlocksOf(ms[j]), r) ::
      r.toolUseId == c.id ==> r.kind == c.kind
  }

  ghost predicate CallWith(bs: seq<Block>, meta: Meta, id: string, o: Origin)
  {
    exists c :: IsCall(bs, c) && c.id == id && OriginOf(c, meta) == o
  }

  lemma {:induction false} RecordMeans(origins: Origins, bs: seq<Block>, meta: Meta, id: string)
    ensures var r := Record(origins, bs, meta);
      if exists c :: IsCall(bs, c) && c.id == id then id in r && CallWith(bs, meta, id, r[id])
      else (id in r <==> id in origins) && (id in r ==> r[id] == origins[id])
  {
    if bs != [] {
      var front, b := bs[..|bs| - 1], bs[|bs| - 1];
      assert bs == front + [b];
      RecordMeans(origins, front, meta, id);
      var r, before := Record(origins, bs, meta), Record(origins, front, meta);
      if b.ToolCall? && b.id == id {
        assert IsCall(bs, b);
      } else if exists c :: IsCall(front, c) && c.id == id {
        var c :| IsCall(front, c) && c.id == id && OriginOf(c, meta) == before[id];
        assert IsCall(bs, c);
      } else {
        assert forall c :: IsCall(bs, c) && c.id == id ==> IsCall(front, c);
      }
    }
  }

  /** Exactly the ids of calls are recorded, each with the origin of one of its calls. */
  lemma {:induction false} AllOriginsMeans(ms: seq<Message>, id: string)
    ensures id in AllOrigins(ms) ==>
      exists i :: 0 <= i < |ms| && CallWith(BlocksOf(ms[i]), ms[i].meta, id, AllOrigins(ms)[id])
    ensures id !in AllOrigins(ms) ==> forall i, c | 0 <= i < |ms| && IsCall(BlocksOf(ms[i]), c) :: c.id != id
  {
    if ms != [] {
      var n := |ms| - 1;
      AllOriginsMeans(ms[..n], id);
      RecordMeans(AllOrigins(ms[..n]), BlocksOf(ms[n]), ms[n].meta, id);
      assert forall i | 0 <= i < n :: ms[..n][i] == ms[i];
    }
  }

  lemma {:induction false} RecordedOrigin(ms: seq<Message>, i: nat, c: Block)
    requires Agreed(ms) && i < |ms| && IsCall(BlocksOf(ms[i]), c)
    ensures c.id in AllOrigins(ms) && AllOrigins(ms)[c.id] == OriginOf(c, ms[i].meta)
  {
    AllOriginsMeans(ms, c.id);
    var j :| 0 <= j < |ms| && CallWith(BlocksOf(ms[j]), ms[j].meta, c.id, AllOrigins(ms)[c.id]);
  }

  lemma {:induction false} SameVerdict(ms: seq<Message>, t: Target, i: nat, c: Block, j: nat, r: Block)
    requires Agreed(ms) && KindsMatch(ms) && i < |ms| && j < |ms|
    requires IsCall(BlocksOf(ms[i]), c) && IsResult(BlocksOf(ms[j]), r) && r.toolUseId == c.id
    ensures CallKept(c, ms[i].meta, t) <==> ResultKept(r, ms[j].meta, AllOrigins(ms), t)
  {
    RecordedOrigin(ms, i, c);
  }

  /** A call and its result are both kept, or both become a note. */
  lemma {:induction false} ExchangeStaysTogether(ms: seq<Message>, t: Target, i: nat, c: Block, j: nat, r: Block)
    requires Agreed(ms) && KindsMatch(ms) && i < |ms| && j < |ms|
    requires IsCall(BlocksOf(ms[i]), c) && IsResult(BlocksOf(ms[j]), r) && r.toolUseId == c.id
    ensures CallKept(c, ms[i].meta, t) <==> ResultKept(r, ms[j].meta, AllOrigins(ms), t)
    ensures var call := AdaptBlock(c, ms[i].meta, ms[i].role.Assistant?, AllOrigins(ms), t).0;
      var result := AdaptBlock(r, ms[j].meta, ms[j].role.Assistant?, AllOrigins(ms), t).0;
      |call| == |result| == 1 && ((call == [c] && result[0].ToolResult? && result[0].toolUseId == c.id) ||
                                  (call[0].Text? && result[0].Text?))
  {
    SameVerdict(ms, t, i, c, j, r);
  }

  lemma {:induction false} PairsSurviveFrom(ms: seq<Message>, t: Target, k: nat)
    requires Agreed(ms) && KindsMatch(ms) && ValidForProvider(ms) && k <= |ms|
    ensures PairsSurvive(ms[k..], AllOrigins(ms), t)
    decreases |ms| - k
  {
    if k + 1 < |ms| {
      PairsSurviveFrom(ms, t, k + 1);
      assert ms[k..][0] == ms[k] && ms[k..][1] == ms[k + 1] && ms[k..][1..] == ms[k + 1..];
      forall c | c in Calls(ms[k]) && CallKept(c, ms[k].meta, t)
        ensures HasKeptResult(BlocksOf(ms[k + 1]), ProviderId(c), ms[k + 1].meta, AllOrigins(ms), t)
      {
        CallsInMembers(BlocksOf(ms[k]));
        var r :| r in BlocksOf(ms[k + 1]) && r.ToolResult? && r.toolUseId == ProviderId(c);
        assert IsCall(BlocksOf(ms[k]), c) && IsResult(BlocksOf(ms[k + 1]), r);
        SameVerdict(ms, t, k, c, k + 1, r);
      }
    }
  }

  /** Valid in, valid out. */
  lemma {:induction false} AdaptationKeepsValidity(ms: seq<Message>, t: Target)
    requires ImagesOnly(t) && Agreed(ms) && KindsMatch(ms) && ValidForProvider(ms)
    ensures ValidForProvider(Adapted(ms, t))
  {
    PairsSurviveFrom(ms, t, 0);
    assert ms[0..] == ms;
    AdaptedIsValidIff(ms, t);
  }

  // ---- valid for every target ------------------------------------------------------------------------------

  /** A target that changes nothing but what it cannot replay. */
  function Probe(provider: string, protocol: Option<string>): (t: Target)
    ensures ImagesOnly(t) && t.provider == provider && t.protocol == protocol
  {
    Target(provider, protocol, true, b => (b, false), text => text, text => text, b => "")
  }

  /** Whatever target keeps blocks of origin `o` keeps those of `recorded`. */
  predicate Carries(o: Origin, recorded: Origin)
  {
    o.provider == "" ||
    (Compatible(recorded.provider, o.provider) && (o.protocol.Some? ==> recorded.protocol == o.protocol))
  }

  lemma {:induction false} CarriesMeans(o: Origin, recorded: Origin)
    ensures Carries(o, recorded) <==>
      forall t | ImagesOnly(t) && Preserve(o, t) :: Preserve(recorded, t)
  {
    if !Carries(o, recorded) {
      var t := Probe(o.provider, if Compatible(recorded.provider, o.provider) then o.protocol else None);
      assert Preserve(o, t) && !Preserve(recorded, t);
    }
  }

  /** The result outlives every target that its call outlives. */
  predicate Outlives(c: Block, meta: Meta, r: Block, next: Meta, origins: Origins)
    requires c.ToolCall? && r.ToolResult?
  {
    r.kind.Json? || (c.kind.Freeform? && Carries(OriginOf(c, meta), ResultOrigin(r, next, origins)))
  }

  predicate HasLastingResult(c: Block, meta: Meta, bs: seq<Block>, next: Meta, origins: Origins)
    requires c.ToolCall?
  {
    exists r :: r in bs && r.ToolResult? && r.toolUseId == c.id && Outlives(c, meta, r, next, origins)
  }

  lemma {:induction false} LastingIsKept(c: Block, meta: Meta, bs: seq<Block>, next: Meta, origins: Origins, t: Target)
    requires c.ToolCall? && ImagesOnly(t) && CallKept(c, meta, t) && HasLastingResult(c, meta, bs, next, origins)
    ensures HasKeptResult(bs, c.id, next, origins, t)
  {
    var r :| r in bs && r.ToolResult? && r.toolUseId == c.id && Outlives(c, meta, r, next, origins);
    CarriesMeans(OriginOf(c, meta), ResultOrigin(r, next, origins));
    assert ResultKept(r, next, origins, t);
  }

  /** Without a lasting result some target keeps the call and none of its results. */
  lemma {:induction false} SomeTargetBreaks(c: Block, meta: Meta, bs: seq<Block>, next: Meta, origins: Origins)
    returns (t: Target)
    requires c.ToolCall? && c.id in origins && HasResult(bs, c.id) && !HasLastingResult(c, meta, bs, next, origins)
    ensures ImagesOnly(t) && CallKept(c, meta, t) && !HasKeptResult(bs, c.id, next, origins, t)
  {
    var recorded := origins[c.id];
    if c.kind.Json? {
      t := Probe("", None);
      assert !Preserve(recorded, t);
    } else {
      var r :| r in bs && r.ToolResult? && r.toolUseId == c.id;
      assert !Outlives(c, meta, r, next, origins) && ResultOrigin(r, next, origins) == recorded;
      CarriesMeans(OriginOf(c, meta), recorded);
      t :| ImagesOnly(t) && Preserve(OriginOf(c, meta), t) && !Preserve(recorded, t);
    }
    forall r | r in bs && r.ToolResult? && r.toolUseId == c.id ensures !ResultKept(r, next, origins, t) {
      assert !Outlives(c, meta, r, next, origins) && ResultOrigin(r, next, origins) == recorded;
    }
  }

  lemma {:induction false} PairsSurviveMeans(ms: seq<Message>, origins: Origins, t: Target)
    ensures PairsSurvive(ms, origins, t) <==>
      forall i: nat | i + 1 < |ms| :: PairSurvives(ms[i], ms[i + 1], origins, t)
  {
    if |ms| >= 2 {
      var rest := ms[1..];
      PairsSurviveMeans(rest, origins, t);
      if PairsSurvive(ms, origins, t) {
        forall i: nat | i + 1 < |ms| ensures PairSurvives(ms[i], ms[i + 1], origins, t) {
          if i > 0 {
            assert PairSurvives(rest[i - 1], rest[i], origins, t);
          }
        }
      }
      if forall i: nat | i + 1 < |ms| :: PairSurvives(ms[i], ms[i + 1], origins, t) {
        assert PairSurvives(ms[0], ms[0 + 1], origins, t);
        forall i: nat | i + 1 < |rest| ensures PairSurvives(rest[i], rest[i + 1], origins, t) {
          assert PairSurvives(ms[i + 1], ms[i + 1 + 1], origins, t);
        }
      }
    }
  }

  /** Every call of message `i` has a lasting result in the next message. */
  predicate PairLasts(m: Message, next: Message, origins: Origins)
  {
    forall c | c in Calls(m) :: HasLastingResult(c, m.meta, BlocksOf(next), next.meta, origins)
  }

  ghost predicate PairsLast(ms: seq<Message>)
  {
    forall i: nat | i + 1 < |ms| :: PairLasts(ms[i], ms[i + 1], AllOrigins(ms))
  }

  /** Some target breaks a pair that does not last. */
  lemma {:induction false} ShortPairBreaks(ms: seq<Message>, i: nat) returns (t: Target)
    requires ValidForProvider(ms) && i + 1 < |ms| && !PairLasts(ms[i], ms[i + 1], AllOrigins(ms))
    ensures ImagesOnly(t) && !PairSurvives(ms[i], ms[i + 1], AllOrigins(ms), t)
  {
    var bs, origins := BlocksOf(ms[i + 1]), AllOrigins(ms);
    var c :| c in Calls(ms[i]) && !HasLastingResult(c, ms[i].meta, bs, ms[i + 1].meta, origins);
    CallsInMembers(BlocksOf(ms[i]));
    assert IsCall(BlocksOf(ms[i]), c) && HasCalls(ms[i]);
    AllOriginsMeans(ms, c.id);
    assert HasResult(bs, c.id);
    t := SomeTargetBreaks(c, ms[i].meta, bs, ms[i + 1].meta, origins);
  }

  /** A valid history is adapted to a valid one for every target if and only if each call
      has, in the next message, a result that is not freeform or that every target
      which keeps the call keeps too. */
  lemma {:induction false} AlwaysValidIffPairsLast(ms: seq<Message>)
    requires ValidForProvider(ms)
    ensures (forall t | ImagesOnly(t) :: ValidForProvider(Adapted(ms, t))) <==> PairsLast(ms)
  {
    if PairsLast(ms) {
      forall t | ImagesOnly(t) ensures ValidForProvider(Adapted(ms, t)) {
        LastingSurvive(ms, t);
        AdaptedIsValidIff(ms, t);
      }
    } else {
      var i: nat :| i + 1 < |ms| && !PairLasts(ms[i], ms[i + 1], AllOrigins(ms));
      var t := ShortPairBreaks(ms, i);
      PairsSurviveMeans(ms, AllOrigins(ms), t);
      AdaptedIsValidIff(ms, t);
    }
  }

  lemma {:induction false} LastingSurvive(ms: seq<Message>, t: Target)
    requires PairsLast(ms) && ImagesOnly(t)
    ensures PairsSurvive(ms, AllOrigins(ms), t)
  {
    PairsSurviveMeans(ms, AllOrigins(ms), t);
    forall i: nat | i + 1 < |ms| ensures PairSurvives(ms[i], ms[i + 1], AllOrigins(ms), t) {
      forall c | c in Calls(ms[i]) && CallKept(c, ms[i].meta, t)
        ensures HasKeptResult(BlocksOf(ms[i + 1]), ProviderId(c), ms[i + 1].meta, AllOrigins(ms), t)
      {
        assert PairLasts(ms[i], ms[i + 1], AllOrigins(ms));
        LastingIsKept(c, ms[i].meta, BlocksOf(ms[i + 1]), ms[i + 1].meta, AllOrigins(ms), t);
      }
    }
  }

  // ---- nothing is orphaned --------------------------------------------------------------------------------

  predicate OwnedBy(calls: seq<Block>, id: string)
  {
    exists c :: c in calls && ProviderId(c) == id
  }

  /** The results of each message belong to calls of the message before it; `calls` are
      those of the message before the first. */
  predicate Owned(calls: seq<Block>, ms: seq<Message>)
    decreases ms
  {
    ms == [] || (ResultsOf(calls, ms[0]) && Owned(Calls(ms[0]), ms[1..]))
  }

  predicate ResultsOf(calls: seq<Block>, m: Message)
  {
    forall r | r in BlocksOf(m) && r.ToolResult? :: OwnedBy(calls, r.toolUseId)
  }

  /** The kept calls of message k - 1, if there is one, are among `calls`. */
  ghost predicate Offers(ms: seq<Message>, t: Target, k: nat, calls: seq<Block>)
    requires k <= |ms|
  {
    k > 0 ==> forall c | c in Calls(ms[k - 1]) && CallKept(c, ms[k - 1].meta, t) :: c in calls
  }

  function CallsBefore(ms: seq<Message>, k: nat): seq<Block>
    requires k <= |ms|
  {
    if k == 0 then [] else Calls(ms[k - 1])
  }

  lemma {:induction false} ResultOwned(ms: seq<Message>, t: Target, k: nat, calls: seq<Block>, r: Block)
    requires Agreed(ms) && KindsMatch(ms) && k < |ms| && Offers(ms, t, k, calls)
    requires IsResult(BlocksOf(ms[k]), r) && ResultKept(r, ms[k].meta, AllOrigins(ms), t)
    requires k > 0 && OwnedBy(Calls(ms[k - 1]), r.toolUseId)
    ensures OwnedBy(calls, r.toolUseId)
  {
    var c :| c in Calls(ms[k - 1]) && ProviderId(c) == r.toolUseId;
    CallsInMembers(BlocksOf(ms[k - 1]));
    SameVerdict(ms, t, k - 1, c, k, r);
    assert c in calls;
  }

  lemma {:induction false} ResultsOwned(ms: seq<Message>, t: Target, k: nat, calls: seq<Block>, out: Message)
    requires Agreed(ms) && KindsMatch(ms) && k < |ms| && Offers(ms, t, k, calls)
    requires ResultsOf(CallsBefore(ms, k), ms[k])
    requires Survive(BlocksOf(ms[k]), BlocksOf(out), ms[k].meta, AllOrigins(ms), t)
    ensures ResultsOf(calls, out)
  {
    var bs := BlocksOf(ms[k]);
    forall r | r in BlocksOf(out) && r.ToolResult? ensures OwnedBy(calls, r.toolUseId) {
      assert HasResult(BlocksOf(out), r.toolUseId);
      assert HasKeptResult(bs, r.toolUseId, ms[k].meta, AllOrigins(ms), t);
      var o :| o in bs && o.ToolResult? && o.toolUseId == r.toolUseId && ResultKept(o, ms[k].meta, AllOrigins(ms), t);
      assert OwnedBy(CallsBefore(ms, k), o.toolUseId);
      if k > 0 {
        ResultOwned(ms, t, k, calls, o);
      }
    }
  }

  lemma {:induction false} AdaptedResultsOwned(ms: seq<Message>, t: Target, k: nat, calls: seq<Block>)
    requires ImagesOnly(t) && Agreed(ms) && KindsMatch(ms) && k < |ms| && Offers(ms, t, k, calls)
    requires ResultsOf(CallsBefore(ms, k), ms[k])
    ensures var out := AdaptMessage(ms[k], AllOrigins(ms), t);
      out == [] || (out == [out[0]] && ResultsOf(calls, out[0]))
  {
    MessageSurvives(ms[k], AllOrigins(ms), t);
    var out := AdaptMessage(ms[k], AllOrigins(ms), t);
    if out != [] {
      ResultsOwned(ms, t, k, calls, out[0]);
    }
  }

  lemma {:induction false} OwnedCons(calls: seq<Block>, m: Message, rest: seq<Message>)
    ensures Owned(calls, [m] + rest) <==> ResultsOf(calls, m) && Owned(Calls(m), rest)
  {
    assert ([m] + rest)[1..] == rest;
  }

  lemma {:induction false} OffersNext(ms: seq<Message>, t: Target, k: nat, calls: seq<Block>)
    requires ImagesOnly(t) && k < |ms|
    ensures var out := AdaptMessage(ms[k], AllOrigins(ms), t);
      Offers(ms, t, k + 1, if out == [] then calls else Calls(out[0]))
  {
    var m, origins := ms[k], AllOrigins(ms);
    var out := AdaptMessage(m, origins, t);
    forall c | c in Calls(m) && CallKept(c, m.meta, t) ensures out != [] && c in Calls(out[0]) {
      MessageSurvives(m, origins, t);
      CallsInMembers(BlocksOf(m));
      KeptCalls(m, origins, t, c);
    }
  }

  lemma {:induction false} OwnedFrom(ms: seq<Message>, t: Target, k: nat, calls: seq<Block>)
    requires ImagesOnly(t) && Agreed(ms) && KindsMatch(ms) && k <= |ms|
    requires Owned(CallsBefore(ms, k), ms[k..]) && Offers(ms, t, k, calls)
    ensures Owned(calls, AdaptAll(ms[k..], AllOrigins(ms), t))
    decreases |ms| - k
  {
    if k < |ms| {
      var m, rest, origins := ms[k], ms[k + 1..], AllOrigins(ms);
      OwnedSplit(ms, k);
      AdaptAllSplit(ms, k, origins, t);
      AdaptedResultsOwned(ms, t, k, calls);
      OffersNext(ms, t, k, calls);
      var out := AdaptMessage(m, origins, t);
      OwnedFrom(ms, t, k + 1, if out == [] then calls else Calls(out[0]));
      OwnedJoin(calls, out, AdaptAll(rest, origins, t));
    }
  }

  lemma {:induction false} OwnedSplit(ms: seq<Message>, k: nat)
    requires k < |ms| && Owned(CallsBefore(ms, k), ms[k..])
    ensures ResultsOf(CallsBefore(ms, k), ms[k]) && Owned(CallsBefore(ms, k + 1), ms[k + 1..])
  {
    assert ms[k..] == [ms[k]] + ms[k + 1..];
    OwnedCons(CallsBefore(ms, k), ms[k], ms[k + 1..]);
  }

  lemma {:induction false} AdaptAllSplit(ms: seq<Message>, k: nat, origins: Origins, t: Target)
    requires k < |ms|
    ensures AdaptAll(ms[k..], origins, t) == AdaptMessage(ms[k], origins, t) + AdaptAll(ms[k + 1..], origins, t)
  {
    assert ms[k..] == [ms[k]] + ms[k + 1..];
    AdaptAllCons(ms[k], ms[k + 1..], origins, t);
  }

  lemma {:induction false} OwnedJoin(calls: seq<Block>, out: seq<Message>, after: seq<Message>)
    requires out == [] || (out == [out[0]] && ResultsOf(calls, out[0]))
    requires Owned(if out == [] then calls else Calls(out[0]), after)
    ensures Owned(calls, out + after)
  {
    if out == [] {
      assert out + after == after;
    } else {
      OwnedCons(calls, out[0], after);
    }
  }

  /** Neither rewriting nor dropping emptied messages leaves a result without its call. */
  lemma {:induction false} AdaptationOrphansNothing(ms: seq<Message>, t: Target)
    requires ImagesOnly(t) && Agreed(ms) && KindsMatch(ms) && Owned([], ms)
    ensures Owned([], Adapted(ms, t))
  {
    assert ms[0..] == ms;
    OwnedFrom(ms, t, 0, []);
  }

  // ---- a reused id -----------------------------------------------------------------------------------------

  function Asking(provider: string, c: Block): Message
  {
    Message(Assistant, Blocks([c]), Meta(provider, ""))
  }

  function Answering(r: Block): Message
  {
    Message(User, Blocks([r]), NO_META)
  }

  /** Two providers used the same id: the first exchange is judged by its own provider
      where it asks and by the other one where it answers. */
  lemma {:induction false} ReusedIdBreaksPairing(t: Target, p: string, q: string, c: Block, r: Block)
    requires ImagesOnly(t) && t.protocol.None? && Compatible(p, t.provider) && !Compatible(q, t.provider)
    requires c.ToolCall? && r.ToolResult? && c.kind.Freeform? && r.kind.Freeform? && r.toolUseId == c.id
    ensures var ms := [Asking(p, c), Answering(r), Asking(q, c), Answering(r)];
      ValidForProvider(ms) && KindsMatch(ms) && !ValidForProvider(Adapted(ms, t))
  {
    var ms := [Asking(p, c), Answering(r), Asking(q, c), Answering(r)];
    TwiceIsValid(ms, c, r);
    OneBlock(c);
    OneBlock(r);
    LastWins(ms, c, q);
    AdaptedIsValidIff(ms, t);
    FirstPairBreaks(ms, t, AllOrigins(ms), c, r);
  }

  lemma {:induction false} OneBlock(b: Block)
    ensures CallsIn([b]) == if b.ToolCall? then [b] else []
  {
    assert [b][1..] == [];
  }

  lemma {:induction false} PairIsValid(m: Message, n: Message, rest: seq<Message>, c: Block, r: Block)
    requires c.ToolCall? && r.ToolResult? && r.toolUseId == c.id && ValidForProvider(rest)
    requires m.role.Assistant? && n.role.User? && m.content == Blocks([c]) && n.content == Blocks([r])
    ensures ValidForProvider([m] + ([n] + rest))
  {
    OneBlock(c);
    OneCovers(c, r);
    assert !HasCalls(n);
    ValidCons(n, rest);
    ValidCons(m, [n] + rest);
  }

  lemma {:induction false} TwiceIsValid(ms: seq<Message>, c: Block, r: Block)
    requires |ms| == 4 && c.ToolCall? && r.ToolResult? && r.kind == c.kind && r.toolUseId == c.id
    requires ms[0].role.Assistant? && ms[2].role.Assistant? && ms[1].role.User? && ms[3].role.User?
    requires ms[0].content == ms[2].content == Blocks([c]) && ms[1].content == ms[3].content == Blocks([r])
    ensures ValidForProvider(ms) && KindsMatch(ms)
  {
    PairIsValid(ms[2], ms[3], [], c, r);
    var later := [ms[2]] + ([ms[3]] + []);
    PairIsValid(ms[0], ms[1], later, c, r);
    assert ms == [ms[0]] + ([ms[1]] + later);
    OnlyThese(ms, c, r);
  }

  lemma {:induction false} OnlyThese(ms: seq<Message>, c: Block, r: Block)
    requires c.ToolCall? && r.ToolResult? && r.kind == c.kind
    requires forall m | m in ms :: BlocksOf(m) == [c] || BlocksOf(m) == [r]
    ensures KindsMatch(ms)
  {
    forall i, b | 0 <= i < |ms| && b in BlocksOf(ms[i]) ensures b == c || b == r {
      assert ms[i] in ms;
    }
  }

  lemma {:induction false} OneCovers(c: Block, r: Block)
    requires c.ToolCall? && r.ToolResult? && r.toolUseId == c.id
    ensures ResultsCover([c], [r])
  {
    assert r in [r];
  }

  lemma {:induction false} FirstPairBreaks(ms: seq<Message>, t: Target, origins: Origins, c: Block, r: Block)
    requires |ms| >= 2 && c.ToolCall? && r.ToolResult? && Calls(ms[0]) == [c] && BlocksOf(ms[1]) == [r]
    requires CallKept(c, ms[0].meta, t) && !ResultKept(r, ms[1].meta, origins, t)
    ensures !PairsSurvive(ms, origins, t)
  {
    assert c in [c];
    assert !HasKeptResult([r], ProviderId(c), ms[1].meta, origins, t);
    assert !PairSurvives(ms[0], ms[1], origins, t);
  }

  lemma {:induction false} LastWins(ms: seq<Message>, c: Block, q: string)
    requires |ms| == 4 && c.ToolCall? && ms[2] == Asking(q, c)
    requires ms[3].content.Blocks? && CallsIn(BlocksOf(ms[3])) == []
    ensures c.id in AllOrigins(ms) && AllOrigins(ms)[c.id] == Origin(q, SourceProtocol(c.name, Meta(q, "")))
  {
    CallsInMembers(BlocksOf(ms[3]));
    RecordMeans(AllOrigins(ms[..3]), BlocksOf(ms[3]), ms[3].meta, c.id);
    RecordMeans(AllOrigins(ms[..3][..2]), [c], ms[2].meta, c.id);
    assert ms[..3][2] == ms[2] && IsCall([c], c);
    assert Record(AllOrigins(ms[..3][..2]), [c], ms[2].meta) == AllOrigins(ms[..3]);
  }

  // ---- stored messages ---------------------------------------------------------------------------------------

  /** A message as the history stores it: an object that others may hold on to. */
  class Stored {
    var message: Message

    constructor (message: Message)
      ensures this.message == message
    {
      this.message := message;
    }
  }

  function Values(stored: seq<Stored>): (ms: seq<Message>)
    reads set o | o in stored
    ensures |ms| == |stored| && forall i | 0 <= i < |stored| :: ms[i] == stored[i].message
  {
    seq(|stored|, i requires 0 <= i < |stored| reads (set o | o in stored) => stored[i].message)
  }

  lemma {:induction false} ValuesAppend(xs: seq<Stored>, ys: seq<Stored>)
    ensures Values(xs + ys) == Values(xs) + Values(ys)
  {
  }

  /** What the request holds for one stored message: itself exactly when nothing in it
      changes, otherwise a new object or nothing. */
  method AdaptOneStored(o: Stored, origins: Origins, t: Target) returns (out: seq<Stored>, ghost made: set<Stored>)
    ensures Values(out) == AdaptMessage(o.message, origins, t)
    ensures out == [o] <==> !Changes(o.message, origins, t)
    ensures fresh(made) && (out == [o] || forall x | x in out :: x in made)
  {
    var adapted, changed := AdaptOne(o.message, origins, t);
    AdaptOneAtMost(o.message, origins, t);
    if !changed {
      return [o], {};
    }
    if adapted == [] {
      return [], {};
    }
    var o' := new Stored(adapted[0]);
    return [o'], {o'};
  }

  /** Message `i` is not dropped. */
  predicate Remains(ms: seq<Message>, origins: Origins, t: Target, i: nat)
  {
    i < |ms| && AdaptMessage(ms[i], origins, t) != []
  }

  /** Where message `i` stands in the adapted history. */
  function Place(ms: seq<Message>, origins: Origins, t: Target, i: nat): nat
    requires i <= |ms|
  {
    |AdaptAll(ms[..i], origins, t)|
  }

  /** Of the first `n` messages, those that remain stand in their places in `r`: a message
      that does not change as the stored object itself, any other as one of `made`. */
  ghost predicate HandedOn(history: seq<Stored>, ms: seq<Message>, origins: Origins, t: Target, n: nat,
                           r: seq<Stored>, made: set<Stored>)
    requires n <= |ms| == |history|
  {
    forall i: nat | i < n && Remains(ms, origins, t, i) ::
      var k := Place(ms, origins, t, i);
      k < |r| && if Changes(ms[i], origins, t) then r[k] in made else r[k] == history[i]
  }

  lemma {:induction false} HandOnNext(history: seq<Stored>, ms: seq<Message>, origins: Origins, t: Target, n: nat,
                                      r: seq<Stored>, made: set<Stored>, out: seq<Stored>, more: set<Stored>)
    requires n < |ms| == |history| && HandedOn(history, ms, origins, t, n, r, made)
    requires |r| == Place(ms, origins, t, n) && (out == [] <==> !Remains(ms, origins, t, n))
    requires out == [history[n]] <==> !Changes(ms[n], origins, t)
    requires out == [history[n]] || forall x | x in out :: x in more
    ensures HandedOn(history, ms, origins, t, n + 1, r + out, made + more)
  {
  }

  /** The request for the target: stored messages that need no change are handed on as
      they are, changed ones are new objects, each in its place, and no stored message
      is written to. */
  method AdaptStored(history: seq<Stored>, t: Target) returns (r: seq<Stored>, ghost made: set<Stored>)
    ensures Values(history) == old(Values(history))
    ensures Values(r) == Adapted(Values(history), t)
    ensures fresh(made)
    ensures HandedOn(history, Values(history), AllOrigins(Values(history)), t, |history|, r, made)
  {
    var ms := Values(history);
    var origins := RecordOrigins(ms);
    r, made := [], {};
    for i := 0 to |history|
      invariant Values(r) == AdaptAll(ms[..i], origins, t)
      invariant fresh(made) && HandedOn(history, ms, origins, t, i, r, made)
    {
      var out, more := AdaptOneStored(history[i], origins, t);
      AdaptAllNext(ms, i, origins, t);
      HandOnNext(history, ms, origins, t, i, r, made, out, more);
      ValuesAppend(r, out);
      r, made := r + out, made + more;
    }
    assert ms[..|ms|] == ms;
  }

  lemma {:induction false} AdaptOneAtMost(m: Message, origins: Origins, t: Target)
    ensures |AdaptMessage(m, origins, t)| <= 1
  {
  }
}
