/** handle_generate_real without cancellation or failure: chunked prefill and a decode loop that
    issues the next forward before it looks at the current token, against the naive loop "sample
    from the logits of everything so far, stop at an end token or at the limit". */
module DecodeLoop {
  import opened SeqOps
  import A = Attention

  const PREFILL_CHUNK: nat := 512

  /** The network as a function of the token history, and the sampler with its key chain. */
  datatype Net<!L, !K> = Net(
    logits: seq<int> -> L,
    sample: (L, K) -> int,
    split: K -> (K, K),      // next key, subkey
    isEos: int -> bool)

  /** What is behind the logits: the layers, and the head that maps the last hidden state to logits. */
  datatype Arch<!H, !R, !L> = Arch(layers: A.Net<H, R>, cfg: A.Config, head: H -> L)

  /** The logits after the tokens t, from the position-by-position definition. */
  function LogitsOf<H, R, L>(arch: Arch<H, R, L>, t: seq<int>): L
    requires A.Sourced(arch.cfg) && t != []
  {
    arch.head(A.Hidden(arch.layers, arch.cfg, t, arch.cfg.layers, |t| - 1))
  }

  /** The logits of net are those of arch. */
  ghost predicate Realizes<H, R, L, K>(arch: Arch<H, R, L>, net: Net<L, K>) {
    A.Sourced(arch.cfg) && forall t: seq<int> {:trigger net.logits(t)} :: t != [] ==> net.logits(t) == LogitsOf(arch, t)
  }

  datatype Outcome = Stop | Length | ContextTooLong

  datatype Reply = Reply(tokens: seq<int>, outcome: Outcome)

  /** The token that is sampled after ctx. */
  function Sampled<L, K>(net: Net<L, K>, ctx: seq<int>, key: K): int {
    net.sample(net.logits(ctx), net.split(key).1)
  }

  /** The naive loop with `budget` tokens to go. */
  function Naive<L, K>(net: Net<L, K>, ctx: seq<int>, key: K, budget: nat): (r: Reply)
    ensures |r.tokens| <= budget
    ensures r.outcome.Length? <==> |r.tokens| == budget
    ensures !r.outcome.ContextTooLong?
    decreases budget
  {
    if budget == 0 then Reply([], Length)
    else
      var tok := Sampled(net, ctx, key);
      if net.isEos(tok) then Reply([], Stop)
      else
        var rest := Naive(net, ctx + [tok], net.split(key).0, budget - 1);
        Reply([tok] + rest.tokens, rest.outcome)
  }

  function After(emitted: seq<int>, r: Reply): Reply {
    Reply(emitted + r.tokens, r.outcome)
  }

  /** One turn of the naive loop that does not stop. */
  lemma NaiveStep<L, K>(net: Net<L, K>, ctx: seq<int>, key: K, budget: nat, emitted: seq<int>)
    requires budget > 0 && !net.isEos(Sampled(net, ctx, key))
    ensures var tok := Sampled(net, ctx, key);
            After(emitted, Naive(net, ctx, key, budget))
            == After(emitted + [tok], Naive(net, ctx + [tok], net.split(key).0, budget - 1))
  {
    var tok := Sampled(net, ctx, key);
    Assoc(emitted, [tok], Naive(net, ctx + [tok], net.split(key).0, budget - 1).tokens);
  }

  /** ks is the chain of keys that are kept, the first half of each split; token i is sampled with the
      second half of the i-th split from the logits of everything before it, none is an end token, and
      the reply stops only where the next token sampled would be one, or at the limit. */
  ghost predicate Explains<L, K>(net: Net<L, K>, ctx: seq<int>, key: K, budget: nat, r: Reply, ks: seq<K>) {
    var t := r.tokens;
    && |ks| == |t| + 1 && ks[0] == key
    && (forall i :: 0 <= i < |t| ==> ks[i + 1] == net.split(ks[i]).0)
    && (forall i :: 0 <= i < |t| ==> t[i] == net.sample(net.logits(ctx + t[..i]), net.split(ks[i]).1) && !net.isEos(t[i]))
    && match r.outcome
       case Length => |t| == budget
       case Stop => |t| < budget && net.isEos(net.sample(net.logits(ctx + t), net.split(ks[|t|]).1))
       case ContextTooLong => false
  }

  lemma {:induction false} ExplainsCons<L, K>(net: Net<L, K>, ctx: seq<int>, key: K, budget: nat, tok: int, rest: Reply, ks: seq<K>)
    requires budget > 0 && tok == net.sample(net.logits(ctx), net.split(key).1) && !net.isEos(tok)
    requires Explains(net, ctx + [tok], net.split(key).0, budget - 1, rest, ks)
    ensures Explains(net, ctx, key, budget, Reply([tok] + rest.tokens, rest.outcome), [key] + ks)
  {
    var t, all := [tok] + rest.tokens, [key] + ks;
    assert ctx + t == ctx + [tok] + rest.tokens;
    forall i | 0 <= i < |t|
      ensures all[i + 1] == net.split(all[i]).0
      ensures t[i] == net.sample(net.logits(ctx + t[..i]), net.split(all[i]).1) && !net.isEos(t[i])
    {
      if i == 0 {
        assert ctx + t[..0] == ctx;
      } else {
        assert ctx + t[..i] == ctx + [tok] + rest.tokens[..i - 1];
      }
    }
  }

  /** The naive loop's reply is so explained. */
  lemma {:induction false} NaiveTokens<L, K>(net: Net<L, K>, ctx: seq<int>, key: K, budget: nat) returns (ks: seq<K>)
    ensures Explains(net, ctx, key, budget, Naive(net, ctx, key, budget), ks)
    decreases budget
  {
    ks := [key];
    if budget > 0 {
      var tok := net.sample(net.logits(ctx), net.split(key).1);
      if net.isEos(tok) {
        assert ctx + [] == ctx;
      } else {
        var rest := NaiveTokens(net, ctx + [tok], net.split(key).0, budget - 1);
        ExplainsCons(net, ctx, key, budget, tok, Naive(net, ctx + [tok], net.split(key).0, budget - 1), rest);
        ks := ks + rest;
      }
    }
  }

  /** And no other reply is. */
  lemma {:induction false} OnlyNaive<L, K>(net: Net<L, K>, ctx: seq<int>, key: K, budget: nat, r: Reply, ks: seq<K>)
    requires Explains(net, ctx, key, budget, r, ks) && |r.tokens| <= budget
    ensures r == Naive(net, ctx, key, budget)
    decreases budget
  {
    var t := r.tokens;
    if t == [] {
      assert ctx + t == ctx;
    } else {
      var rest := Reply(t[1..], r.outcome);
      assert ctx + t[..0] == ctx;
      ExplainsTail(net, ctx, key, budget, r, ks);
      OnlyNaive(net, ctx + [t[0]], net.split(key).0, budget - 1, rest, ks[1..]);
      assert t == [t[0]] + t[1..];
    }
  }

  lemma {:induction false} ExplainsTail<L, K>(net: Net<L, K>, ctx: seq<int>, key: K, budget: nat, r: Reply, ks: seq<K>)
    requires Explains(net, ctx, key, budget, r, ks) && 0 < |r.tokens| <= budget
    ensures Explains(net, ctx + [r.tokens[0]], net.split(key).0, budget - 1, Reply(r.tokens[1..], r.outcome), ks[1..])
  {
    var t, u := r.tokens, r.tokens[1..];
    assert ctx + [t[0]] + u == ctx + t;
    forall i | 0 <= i < |u|
      ensures u[i] == net.sample(net.logits(ctx + [t[0]] + u[..i]), net.split(ks[1..][i]).1) && !net.isEos(u[i])
      ensures ks[1..][i + 1] == net.split(ks[1..][i]).0
    {
      assert ctx + [t[0]] + u[..i] == ctx + t[..i + 1];
      assert u[i] == t[i + 1] && ks[1..][i] == ks[i + 1] && ks[1..][i + 1] == ks[i + 2];
    }
  }

  /** What the cache holds at the end: exactly the tokens fed, which is everything but the last token
      after LENGTH, and one speculative end token more after an early STOP. */
  ghost predicate CacheHolds<L, K>(net: Net<L, K>, prompt: seq<int>, reply: Reply, maxNew: int, cache: seq<int>, discarded: nat) {
    && discarded == (if reply.outcome.Stop? && |reply.tokens| + 1 < maxNew then 1 else 0)
    && (reply.outcome.Length? ==> |reply.tokens| > 0 && cache == prompt + reply.tokens[..|reply.tokens| - 1])
    && (reply.outcome.Stop? && discarded == 0 ==> cache == prompt + reply.tokens)
    && (reply.outcome.Stop? && discarded == 1 ==>
          cache != [] && net.isEos(cache[|cache| - 1]) && cache[..|cache| - 1] == prompt + reply.tokens)
  }

  /** The model with the caches of its layers.  `cache` is what has been fed to them, in order. */
  class Model<!L, !K, !H, !R> {
    const net: Net<L, K>
    const arch: Arch<H, R, L>
    var rows: seq<A.Cache<R>>
    var cache: seq<int>
    var forwards: nat

    ghost predicate Valid()
      reads this
    {
      Realizes(arch, net) && A.Holds(arch.layers, arch.cfg, cache, rows, 0, |cache|, |cache|)
    }

    constructor (net: Net<L, K>, arch: Arch<H, R, L>)
      requires Realizes(arch, net)
      ensures Valid() && this.net == net && cache == [] && forwards == 0
    {
      this.net := net;
      this.arch := arch;
      rows := A.Empty(arch.cfg.layers);
      cache, forwards := [], 0;
    }

    /** model_forward: one chunk through all layers, with chunk masks, trimmed views and shared layers;
        the head is applied to the last position.  The logits are those of the whole history. */
    method Forward(ids: seq<int>) returns (logits: L)
      requires Valid() && ids != []
      modifies this
      ensures Valid() && cache == old(cache) + ids && logits == net.logits(cache) && forwards == old(forwards) + 1
    {
      A.ForwardExtends(arch.layers, arch.cfg, cache, ids, rows);
      var r := A.Forward(arch.layers, arch.cfg, ids, rows);
      logits := arch.head(r.hidden[|ids| - 1]);
      rows := r.caches;
      cache := cache + ids;
      forwards := forwards + 1;
    }

    /** The prefill loop over prompt[:-1]. */
    method Prefill(prompt: seq<int>)
      requires Valid() && prompt != [] && cache == [] && forwards == 0
      modifies this
      ensures Valid() && cache == prompt[..|prompt| - 1]
      ensures forwards == (|prompt| - 1 + 511) / 512
    {
      var pos, prefixEnd := 0, |prompt| - 1;
      while pos < prefixEnd
        invariant Valid() && 0 <= pos <= prefixEnd && cache == prompt[..pos]
        invariant pos == prefixEnd || pos == forwards * PREFILL_CHUNK
        invariant pos == prefixEnd ==> forwards == (prefixEnd + PREFILL_CHUNK - 1) / PREFILL_CHUNK
      {
        var chunkEnd := pos + PREFILL_CHUNK;
        if chunkEnd > prefixEnd {
          chunkEnd := prefixEnd;
        }
        assert prompt[..chunkEnd] == prompt[..pos] + prompt[pos..chunkEnd];
        var _ := Forward(prompt[pos..chunkEnd]);
        pos := chunkEnd;
      }
    }

    /** The pipelined decode loop, after the seed forward left the logits of the whole prompt. */
    method Decode(prompt: seq<int>, seed: L, key: K, maxNew: nat) returns (reply: Reply, ghost discarded: nat)
      requires Valid() && maxNew > 0 && cache == prompt && seed == net.logits(prompt)
      modifies this
      ensures reply == Naive(net, prompt, key, maxNew)
      ensures forwards == old(forwards) + |reply.tokens| - (if reply.outcome.Length? then 1 else 0) + discarded
      ensures CacheHolds(net, prompt, reply, maxNew, cache, discarded)
    {
      var emitted: seq<int> := [];
      var pending, k := seed, key;
      discarded := 0;
      assert prompt + [] == prompt;
      while |emitted| < maxNew
        invariant Valid() && |emitted| < maxNew && discarded == 0
        invariant cache == prompt + emitted && pending == net.logits(cache)
        invariant forwards == old(forwards) + |emitted|
        invariant Naive(net, prompt, key, maxNew) == After(emitted, Naive(net, cache, k, maxNew - |emitted|))
        decreases maxNew - |emitted|
      {
        var (nextKey, subkey) := net.split(k);
        var tok := net.sample(pending, subkey);
        ghost var ctx := cache;
        var haveNext := |emitted| + 1 < maxNew;
        var nextLogits := pending;
        if haveNext {
          nextLogits := Forward([tok]);
        }
        if net.isEos(tok) {
          discarded := if haveNext then 1 else 0;
          assert emitted + [] == emitted;
          return Reply(emitted, Stop), discarded;
        }
        NaiveStep(net, ctx, k, maxNew - |emitted|, emitted);
        Assoc(prompt, emitted, [tok]);
        emitted := emitted + [tok];
        if |emitted| == maxNew {
          assert emitted + [] == emitted && emitted[..maxNew - 1] + [tok] == emitted;
          return Reply(emitted, Length), 0;
        }
        pending, k := nextLogits, nextKey;
      }
    }
  }

  /** The whole of handle_generate_real on a fresh cache: chunked prefill, trimmed views, shared layers
      and pipelining together emit what the naive loop over the definition emits. */
  method Generate<L, K, H, R>(net: Net<L, K>, arch: Arch<H, R, L>, prompt: seq<int>, maxNew: int, maxPositions: nat, key: K)
    returns (reply: Reply, cache: seq<int>, ghost discarded: nat)
    requires Realizes(arch, net)
    ensures |prompt| > maxPositions ==> reply == Reply([], ContextTooLong) && cache == []
    ensures |prompt| <= maxPositions && (prompt == [] || maxNew <= 0) ==> reply == Reply([], Stop) && cache == []
    ensures |prompt| <= maxPositions && prompt != [] && maxNew > 0 ==>
              reply == Naive(net, prompt, key, maxNew) && CacheHolds(net, prompt, reply, maxNew, cache, discarded)
    ensures |prompt| <= maxPositions && prompt != [] && maxNew > 0 ==>
              exists ks :: Explains(net, prompt, key, maxNew, reply, ks)
  {
    cache, discarded := [], 0;
    if |prompt| > maxPositions {
      return Reply([], ContextTooLong), cache, 0;
    }
    if prompt == [] || maxNew <= 0 {
      return Reply([], Stop), cache, 0;
    }
    var m := new Model(net, arch);
    m.Prefill(prompt);
    var last := prompt[|prompt| - 1..];
    var seed := m.Forward(last);
    assert prompt[..|prompt| - 1] + last == prompt;
    reply, discarded := m.Decode(prompt, seed, key, maxNew);
    ghost var ks := NaiveTokens(net, prompt, key, maxNew);
    cache := m.cache;
  }
}
