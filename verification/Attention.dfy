/** The attention layers over the cache (fwd_attention and model_layer_*): however a token sequence
    is cut into prefill and decode chunks, every position attends exactly its causal window with its
    own rotary offset, so the hidden states are those of the position-by-position definition. */
module Attention {
  import opened KvCache
  import opened Bits

  const MAX_LAYERS: nat := 128

  datatype Config = Config(
    layers: nat,
    explicitTypes: bool,
    explicitGlobal: nat -> bool,
    hasWindow: bool,
    window: int,
    pattern: int,
    sharedLayers: int)

  /** model_layer_is_global. */
  predicate IsGlobal(cfg: Config, l: nat) {
    if cfg.explicitTypes then l >= MAX_LAYERS || cfg.explicitGlobal(l)
    else if !cfg.hasWindow then true
    else if cfg.pattern <= 0 then false
    else l % cfg.pattern == cfg.pattern - 1
  }

  /** Without an explicit list, of every `pattern` layers in a row, counted from 0, exactly the last
      is global. */
  lemma {:induction false} LastOfBlockIsGlobal(cfg: Config, block: nat, j: nat)
    requires !cfg.explicitTypes && cfg.hasWindow && j < cfg.pattern
    ensures IsGlobal(cfg, block * cfg.pattern + j) <==> j + 1 == cfg.pattern
  {
    Quotient(block * cfg.pattern + j, cfg.pattern, block, j);
  }

  /** An explicit list decides where it reaches; without it, no window makes every layer global and a
      window without a pattern none. */
  lemma KindOf(cfg: Config, l: nat)
    ensures cfg.explicitTypes ==> (IsGlobal(cfg, l) <==> l >= 128 || cfg.explicitGlobal(l))
    ensures !cfg.explicitTypes && !cfg.hasWindow ==> IsGlobal(cfg, l)
    ensures !cfg.explicitTypes && cfg.hasWindow && cfg.pattern <= 0 ==> !IsGlobal(cfg, l)
  {
  }

  /** Local attention is in force: the layer is not global and a positive window is configured. */
  predicate IsLocal(cfg: Config, l: nat) {
    !IsGlobal(cfg, l) && cfg.hasWindow && cfg.window > 0
  }

  function Boundary(cfg: Config): int {
    cfg.layers - cfg.sharedLayers
  }

  /** model_layer_kv_shared. */
  predicate IsShared(cfg: Config, l: nat) {
    cfg.sharedLayers > 0 && l >= Boundary(cfg)
  }

  /** The last layer below i of the same type as l, or -1. */
  function LastOfType(cfg: Config, global: bool, i: nat): (r: int)
    ensures -1 <= r < i
    ensures r >= 0 ==> IsGlobal(cfg, r) == global
    ensures forall j :: r < j < i ==> IsGlobal(cfg, j) != global
  {
    if i == 0 then -1 else if IsGlobal(cfg, i - 1) == global then i - 1 else LastOfType(cfg, global, i - 1)
  }

  /** model_kv_source_layer as a function. */
  function SourceOf(cfg: Config, l: nat): (r: int)
    ensures r >= 0 ==> r < l && IsShared(cfg, l) && !IsShared(cfg, r) && IsGlobal(cfg, r) == IsGlobal(cfg, l)
  {
    if !IsShared(cfg, l) || Boundary(cfg) <= 0 then -1 else LastOfType(cfg, IsGlobal(cfg, l), Boundary(cfg))
  }

  /** Only the last sharedLayers layers have a source: the last of their kind before those, if there is
      one. */
  lemma SourceIs(cfg: Config, l: nat, r: nat)
    ensures cfg.sharedLayers <= 0 || l < cfg.layers - cfg.sharedLayers ==> SourceOf(cfg, l) == -1
    ensures cfg.sharedLayers > 0 && l >= cfg.layers - cfg.sharedLayers ==>
              (SourceOf(cfg, l) == r <==>
                && r < cfg.layers - cfg.sharedLayers && IsGlobal(cfg, r) == IsGlobal(cfg, l)
                && forall j :: r < j < cfg.layers - cfg.sharedLayers ==> IsGlobal(cfg, j) != IsGlobal(cfg, l))
  {
  }

  /** model_kv_source_layer: the downward search. */
  method KvSourceLayer(cfg: Config, l: nat) returns (r: int)
    ensures r == SourceOf(cfg, l)
  {
    if cfg.sharedLayers <= 0 {
      return -1;
    }
    var boundary := Boundary(cfg);
    if l < boundary {
      return -1;
    }
    var target := IsGlobal(cfg, l);
    var i := boundary - 1;
    while i >= 0
      invariant i < boundary && (i >= -1 || boundary < 0)
      invariant boundary > 0 ==> i >= -1 && LastOfType(cfg, target, boundary) == LastOfType(cfg, target, i + 1)
    {
      if IsGlobal(cfg, i) == target {
        return i;
      }
      i := i - 1;
    }
    return -1;
  }

  // ---------------------------------------------------------------- the network

  /** The arithmetic, uninterpreted: key row of a hidden state at a position, value row, and a whole
      layer given the query position and the attended rows. */
  datatype Net<!H, !R> = Net(
    embed: int -> H,
    key: (nat, H, nat) -> R,
    value: (nat, H) -> R,
    layer: (nat, H, nat, seq<R>, seq<R>) -> H)

  /** The first position that position p attends to. */
  function WindowStart(cfg: Config, l: nat, p: nat): (lo: nat)
    ensures lo <= p
  {
    if IsLocal(cfg, l) && p + 1 > cfg.window then p + 1 - cfg.window else 0
  }

  /** Position p attends to itself and what is before it: everything in a global layer or without a
      positive window, else the positions less than the window away. */
  lemma AttendedIff(cfg: Config, l: nat, p: nat, c: nat)
    ensures WindowStart(cfg, l, p) <= c <= p <==>
            c <= p && (IsGlobal(cfg, l) || !cfg.hasWindow || cfg.window <= 0 || p - c < cfg.window)
  {
  }

  /** The layer whose rows layer l reads; requires that a shared layer has a source. */
  function ReadsFrom(cfg: Config, l: nat): (r: nat)
    requires IsShared(cfg, l) ==> SourceOf(cfg, l) >= 0
    ensures r <= l && !IsShared(cfg, r) && IsGlobal(cfg, r) == IsGlobal(cfg, l)
  {
    if IsShared(cfg, l) then SourceOf(cfg, l) else l
  }

  predicate Sourced(cfg: Config) {
    forall l: nat :: l < cfg.layers && IsShared(cfg, l) ==> SourceOf(cfg, l) >= 0
  }

  /** The hidden state that enters layer l at position p of the tokens t: the position-by-position
      definition. */
  function Hidden<H, R>(net: Net<H, R>, cfg: Config, t: seq<int>, l: nat, p: nat): H
    requires Sourced(cfg) && l <= cfg.layers && p < |t|
    decreases l, 1
  {
    if l == 0 then net.embed(t[p])
    else
      var src, lo := ReadsFrom(cfg, l - 1), WindowStart(cfg, l - 1, p);
      net.layer(l - 1, Hidden(net, cfg, t, l - 1, p), p,
                KeyRows(net, cfg, t, src, lo, p + 1), ValueRows(net, cfg, t, src, lo, p + 1))
  }

  /** The key rows of layer l for positions lo to hi. */
  function KeyRows<H, R>(net: Net<H, R>, cfg: Config, t: seq<int>, l: nat, lo: nat, hi: nat): (r: seq<R>)
    requires Sourced(cfg) && l < cfg.layers && lo <= hi <= |t|
    ensures |r| == hi - lo && forall i :: 0 <= i < hi - lo ==> r[i] == net.key(l, Hidden(net, cfg, t, l, lo + i), lo + i)
    decreases l + 1, 0
  {
    seq(hi - lo, i requires 0 <= i < hi - lo => net.key(l, Hidden(net, cfg, t, l, lo + i), lo + i))
  }

  function ValueRows<H, R>(net: Net<H, R>, cfg: Config, t: seq<int>, l: nat, lo: nat, hi: nat): (r: seq<R>)
    requires Sourced(cfg) && l < cfg.layers && lo <= hi <= |t|
    ensures |r| == hi - lo && forall i :: 0 <= i < hi - lo ==> r[i] == net.value(l, Hidden(net, cfg, t, l, lo + i))
    decreases l + 1, 0
  {
    seq(hi - lo, i requires 0 <= i < hi - lo => net.value(l, Hidden(net, cfg, t, l, lo + i)))
  }

  /** The definition, row by row: position p of layer l gets its own position and, for every position c
      of its window, in order, the key and value rows that the layer itself, or the last earlier owning
      layer of its kind, has for c. */
  lemma {:induction false} HiddenIs<H, R>(net: Net<H, R>, cfg: Config, t: seq<int>, l: nat, p: nat)
      returns (src: nat, ks: seq<R>, vs: seq<R>)
    requires Sourced(cfg) && l < cfg.layers && p < |t|
    ensures src == if cfg.sharedLayers > 0 && l >= cfg.layers - cfg.sharedLayers then SourceOf(cfg, l) else l
    ensures Hidden(net, cfg, t, l + 1, p) == net.layer(l, Hidden(net, cfg, t, l, p), p, ks, vs)
    ensures Hidden(net, cfg, t, 0, p) == net.embed(t[p])
    ensures |ks| == |vs| == p + 1 - WindowStart(cfg, l, p)
    ensures forall c: nat :: WindowStart(cfg, l, p) <= c <= p ==>
              && ks[c - WindowStart(cfg, l, p)] == net.key(src, Hidden(net, cfg, t, src, c), c)
              && vs[c - WindowStart(cfg, l, p)] == net.value(src, Hidden(net, cfg, t, src, c))
  {
    var lo := WindowStart(cfg, l, p);
    src := ReadsFrom(cfg, l);
    ks, vs := KeyRows(net, cfg, t, src, lo, p + 1), ValueRows(net, cfg, t, src, lo, p + 1);
    forall c: nat | lo <= c <= p
      ensures ks[c - lo] == net.key(src, Hidden(net, cfg, t, src, c), c) && vs[c - lo] == net.value(src, Hidden(net, cfg, t, src, c))
    {
      assert lo + (c - lo) == c;
    }
  }

  // ---------------------------------------------------------------- the forward pass on a chunk

  datatype Mask = NoMask | Causal | Window(width: int)

  /** Whether query row i of a chunk of `queries` rows may look at column c of a view.  The rows of the
      chunk are the last ones of the view (fwd_sliding_window_mask, and the alignment of MLX's
      "causal" mode). */
  predicate Allowed(mask: Mask, len: nat, queries: nat, i: nat, c: nat) {
    match mask
    case NoMask => true
    case Causal => c <= len - queries + i
    case Window(w) => 0 <= len - queries + i - c < w
  }

  /** The choice of mask in fwd_attention. */
  function MaskFor(cfg: Config, l: nat, queries: nat): Mask {
    if IsLocal(cfg, l) && queries > 1 then Window(cfg.window)
    else if IsLocal(cfg, l) then NoMask
    else if queries > 1 then Causal
    else NoMask
  }

  /** The rows among the first n that query i attends, in order. */
  function Select<R>(rows: seq<R>, mask: Mask, queries: nat, i: nat, n: nat): seq<R>
    requires n <= |rows|
  {
    if n == 0 then []
    else Select(rows, mask, queries, i, n - 1) + if Allowed(mask, |rows|, queries, i, n - 1) then [rows[n - 1]] else []
  }

  function MaxKv(cfg: Config, l: nat): nat {
    if IsLocal(cfg, l) then cfg.window else 0
  }

  datatype Cache<R> = Cache(k: seq<R>, v: seq<R>)

  datatype Result<H, R> = Failed | Ok(hidden: seq<H>, caches: seq<Cache<R>>)

  /** Every query row through one layer. */
  function Attend<H, R>(net: Net<H, R>, cfg: Config, l: nat, h: seq<H>, offset: nat, k: seq<R>, v: seq<R>): (r: seq<H>)
    ensures |r| == |h|
    ensures var mask := MaskFor(cfg, l, |h|);
            forall i :: 0 <= i < |h| ==>
              r[i] == net.layer(l, h[i], offset + i, Select(k, mask, |h|, i, |k|), Select(v, mask, |h|, i, |v|))
  {
    var mask := MaskFor(cfg, l, |h|);
    seq(|h|, i requires 0 <= i < |h| =>
      net.layer(l, h[i], offset + i, Select(k, mask, |h|, i, |k|), Select(v, mask, |h|, i, |v|)))
  }

  function NewKeys<H, R>(net: Net<H, R>, l: nat, h: seq<H>, offset: nat): (r: seq<R>)
    ensures |r| == |h| && forall i :: 0 <= i < |h| ==> r[i] == net.key(l, h[i], offset + i)
  {
    seq(|h|, i requires 0 <= i < |h| => net.key(l, h[i], offset + i))
  }

  function NewValues<H, R>(net: Net<H, R>, l: nat, h: seq<H>): (r: seq<R>)
    ensures |r| == |h| && forall i :: 0 <= i < |h| ==> r[i] == net.value(l, h[i])
  {
    seq(|h|, i requires 0 <= i < |h| => net.value(l, h[i]))
  }

  /** fwd_attention for layer l: a shared layer reads its source, any other layer appends to its own
      cache first. */
  function LayerForward<H, R>(net: Net<H, R>, cfg: Config, l: nat, h: seq<H>, cs: seq<Cache<R>>): (r: Result<H, R>)
    requires l < |cs|
    ensures r.Ok? ==> |r.caches| == |cs| && |r.hidden| == |h|
  {
    var src := SourceOf(cfg, l);
    if IsShared(cfg, l) && src < 0 then Failed
    else if src >= 0 then
      var c := cs[src];
      if c.k == [] then Failed
      else
        var offset := if |c.k| < |h| then 0 else |c.k| - |h|;
        Ok(Attend(net, cfg, l, h, offset, Trim(c.k, |h|, MaxKv(cfg, src)), Trim(c.v, |h|, MaxKv(cfg, src))), cs)
    else
      var offset := |cs[l].k|;
      var c := Cache(cs[l].k + NewKeys(net, l, h, offset), cs[l].v + NewValues(net, l, h));
      Ok(Attend(net, cfg, l, h, offset, Trim(c.k, |h|, MaxKv(cfg, l)), Trim(c.v, |h|, MaxKv(cfg, l))), cs[l := c])
  }

  /** The layers from l on. */
  function LayersFrom<H, R>(net: Net<H, R>, cfg: Config, l: nat, h: seq<H>, cs: seq<Cache<R>>): Result<H, R>
    requires l <= cfg.layers == |cs|
    decreases cfg.layers - l
  {
    if l == cfg.layers then Ok(h, cs)
    else
      var r := LayerForward(net, cfg, l, h, cs);
      if r.Failed? then Failed else LayersFrom(net, cfg, l + 1, r.hidden, r.caches)
  }

  function Embed<H, R>(net: Net<H, R>, ids: seq<int>): (h: seq<H>)
    ensures |h| == |ids| && forall i :: 0 <= i < |ids| ==> h[i] == net.embed(ids[i])
  {
    seq(|ids|, i requires 0 <= i < |ids| => net.embed(ids[i]))
  }

  /** model_forward on one chunk. */
  function Forward<H, R>(net: Net<H, R>, cfg: Config, ids: seq<int>, cs: seq<Cache<R>>): Result<H, R>
    requires cfg.layers == |cs|
  {
    LayersFrom(net, cfg, 0, Embed(net, ids), cs)
  }

  // ---------------------------------------------------------------- one chunk agrees with the definition

  /** If a mask allows exactly an interval, the attended rows are that slice. */
  lemma {:induction false} SelectSlice<R>(rows: seq<R>, mask: Mask, queries: nat, i: nat, n: nat, lo: nat, hi: nat)
    requires n <= |rows| && lo <= hi <= |rows|
    requires forall c: nat :: c < |rows| ==> (Allowed(mask, |rows|, queries, i, c) <==> lo <= c < hi)
    ensures Select(rows, mask, queries, i, n) == if n <= lo then [] else rows[lo..if n < hi then n else hi]
  {
    if n > 0 {
      SelectSlice(rows, mask, queries, i, n - 1, lo, hi);
    }
  }

  /** The heart: whichever of the full view with a mask, the trimmed view without one, or the causal
      mode is in use, query i of a chunk that ends at position m sees exactly the window of position
      p == m - |chunk| + i. */
  lemma WindowSeen<R>(cfg: Config, l: nat, rows: seq<R>, queries: nat, i: nat)
    requires i < queries <= |rows|
    ensures var v := Trim(rows, queries, MaxKv(cfg, l));
            var p := |rows| - queries + i;
            Select(v, MaskFor(cfg, l, queries), queries, i, |v|) == rows[WindowStart(cfg, l, p)..p + 1]
  {
    var v := Trim(rows, queries, MaxKv(cfg, l));
    var mask := MaskFor(cfg, l, queries);
    var p := |rows| - queries + i;
    if IsLocal(cfg, l) && queries > 1 {
      SelectSlice(v, mask, queries, i, |v|, WindowStart(cfg, l, p), p + 1);
    } else if queries > 1 {
      SelectSlice(v, mask, queries, i, |v|, 0, p + 1);
    } else {
      SelectSlice(v, mask, queries, i, |v|, 0, |v|);
    }
  }

  /** What the caches hold after the first n positions, for the owning layers below `done` one chunk
      further, up to m. */
  ghost predicate Holds<H, R>(net: Net<H, R>, cfg: Config, t: seq<int>, cs: seq<Cache<R>>, done: nat, n: nat, m: nat)
    requires Sourced(cfg) && n <= m <= |t|
  {
    && |cs| == cfg.layers
    && forall l: nat :: l < cfg.layers && !IsShared(cfg, l) ==>
         var len := if l < done then m else n;
         cs[l] == Cache(KeyRows(net, cfg, t, l, 0, len), ValueRows(net, cfg, t, l, 0, len))
  }

  /** h holds the definition's hidden states entering layer l for positions n to m. */
  ghost predicate Is<H, R>(net: Net<H, R>, cfg: Config, t: seq<int>, l: nat, n: nat, m: nat, h: seq<H>)
    requires Sourced(cfg) && l <= cfg.layers && n <= m <= |t|
  {
    |h| == m - n && forall i :: 0 <= i < |h| ==> h[i] == Hidden(net, cfg, t, l, n + i)
  }

  lemma RowsSlice<H, R>(net: Net<H, R>, cfg: Config, t: seq<int>, l: nat, m: nat, lo: nat, hi: nat)
    requires Sourced(cfg) && l < cfg.layers && lo <= hi <= m <= |t|
    ensures KeyRows(net, cfg, t, l, 0, m)[lo..hi] == KeyRows(net, cfg, t, l, lo, hi)
    ensures ValueRows(net, cfg, t, l, 0, m)[lo..hi] == ValueRows(net, cfg, t, l, lo, hi)
  {
  }

  lemma RowsAppend<H, R>(net: Net<H, R>, cfg: Config, t: seq<int>, l: nat, n: nat, m: nat, h: seq<H>)
    requires Sourced(cfg) && l < cfg.layers && n <= m <= |t| && Is(net, cfg, t, l, n, m, h)
    ensures KeyRows(net, cfg, t, l, 0, n) + NewKeys(net, l, h, n) == KeyRows(net, cfg, t, l, 0, m)
    ensures ValueRows(net, cfg, t, l, 0, n) + NewValues(net, l, h) == ValueRows(net, cfg, t, l, 0, m)
  {
  }

  /** Attending the rows of the layer that l reads from, up to position m, gives the next layer's
      hidden states. */
  lemma {:induction false} AttendIsNext<H, R>(net: Net<H, R>, cfg: Config, t: seq<int>, l: nat, n: nat, m: nat, h: seq<H>)
    requires Sourced(cfg) && l < cfg.layers && n < m <= |t| && Is(net, cfg, t, l, n, m, h)
    ensures var src := ReadsFrom(cfg, l);
            var k, v := KeyRows(net, cfg, t, src, 0, m), ValueRows(net, cfg, t, src, 0, m);
            Is(net, cfg, t, l + 1, n, m,
               Attend(net, cfg, l, h, n, Trim(k, m - n, MaxKv(cfg, src)), Trim(v, m - n, MaxKv(cfg, src))))
  {
    var src := ReadsFrom(cfg, l);
    var k, v := KeyRows(net, cfg, t, src, 0, m), ValueRows(net, cfg, t, src, 0, m);
    assert MaxKv(cfg, src) == MaxKv(cfg, l);
    var r := Attend(net, cfg, l, h, n, Trim(k, m - n, MaxKv(cfg, src)), Trim(v, m - n, MaxKv(cfg, src)));
    forall i | 0 <= i < |h|
      ensures r[i] == Hidden(net, cfg, t, l + 1, n + i)
    {
      QuerySees(net, cfg, t, l, n, m, i);
    }
  }

  lemma QuerySees<H, R>(net: Net<H, R>, cfg: Config, t: seq<int>, l: nat, n: nat, m: nat, i: nat)
    requires Sourced(cfg) && l < cfg.layers && n < m <= |t| && i < m - n
    ensures var src, lo, mask := ReadsFrom(cfg, l), WindowStart(cfg, l, n + i), MaskFor(cfg, l, m - n);
            var k := Trim(KeyRows(net, cfg, t, src, 0, m), m - n, MaxKv(cfg, l));
            var v := Trim(ValueRows(net, cfg, t, src, 0, m), m - n, MaxKv(cfg, l));
            && Select(k, mask, m - n, i, |k|) == KeyRows(net, cfg, t, src, lo, n + i + 1)
            && Select(v, mask, m - n, i, |v|) == ValueRows(net, cfg, t, src, lo, n + i + 1)
  {
    var src, lo := ReadsFrom(cfg, l), WindowStart(cfg, l, n + i);
    RowsSlice(net, cfg, t, src, m, lo, n + i + 1);
    RowsSeen(cfg, l, KeyRows(net, cfg, t, src, 0, m), KeyRows(net, cfg, t, src, lo, n + i + 1), n, m, i);
    RowsSeen(cfg, l, ValueRows(net, cfg, t, src, 0, m), ValueRows(net, cfg, t, src, lo, n + i + 1), n, m, i);
  }

  lemma RowsSeen<R>(cfg: Config, l: nat, rows: seq<R>, seen: seq<R>, n: nat, m: nat, i: nat)
    requires n < m == |rows| && i < m - n && seen == rows[WindowStart(cfg, l, n + i)..n + i + 1]
    ensures var v := Trim(rows, m - n, MaxKv(cfg, l));
            Select(v, MaskFor(cfg, l, m - n), m - n, i, |v|) == seen
  {
    WindowSeen(cfg, l, rows, m - n, i);
  }

  lemma {:induction false} LayerStep<H, R>(net: Net<H, R>, cfg: Config, t: seq<int>, l: nat, n: nat, m: nat, h: seq<H>, cs: seq<Cache<R>>)
    requires Sourced(cfg) && l < cfg.layers && n < m <= |t|
    requires Is(net, cfg, t, l, n, m, h) && Holds(net, cfg, t, cs, l, n, m)
    ensures var r := LayerForward(net, cfg, l, h, cs);
            r.Ok? && Is(net, cfg, t, l + 1, n, m, r.hidden) && Holds(net, cfg, t, r.caches, l + 1, n, m)
  {
    if IsShared(cfg, l) {
      SharedStep(net, cfg, t, l, n, m, h, cs);
    } else {
      OwnStep(net, cfg, t, l, n, m, h, cs);
    }
  }

  lemma {:induction false} OwnStep<H, R>(net: Net<H, R>, cfg: Config, t: seq<int>, l: nat, n: nat, m: nat, h: seq<H>, cs: seq<Cache<R>>)
    requires Sourced(cfg) && l < cfg.layers && n < m <= |t| && !IsShared(cfg, l)
    requires Is(net, cfg, t, l, n, m, h) && Holds(net, cfg, t, cs, l, n, m)
    ensures var r := LayerForward(net, cfg, l, h, cs);
            r.Ok? && Is(net, cfg, t, l + 1, n, m, r.hidden) && Holds(net, cfg, t, r.caches, l + 1, n, m)
  {
    assert cs[l] == Cache(KeyRows(net, cfg, t, l, 0, n), ValueRows(net, cfg, t, l, 0, n));
    AttendIsNext(net, cfg, t, l, n, m, h);
    RowsAppend(net, cfg, t, l, n, m, h);
  }

  lemma SharedStep<H, R>(net: Net<H, R>, cfg: Config, t: seq<int>, l: nat, n: nat, m: nat, h: seq<H>, cs: seq<Cache<R>>)
    requires Sourced(cfg) && l < cfg.layers && n < m <= |t| && IsShared(cfg, l)
    requires Is(net, cfg, t, l, n, m, h) && Holds(net, cfg, t, cs, l, n, m)
    ensures var r := LayerForward(net, cfg, l, h, cs);
            r.Ok? && Is(net, cfg, t, l + 1, n, m, r.hidden) && Holds(net, cfg, t, r.caches, l + 1, n, m)
  {
    var src := SourceOf(cfg, l);
    SharedForward(net, cfg, l, n, h, cs, KeyRows(net, cfg, t, src, 0, m), ValueRows(net, cfg, t, src, 0, m));
    AttendIsNext(net, cfg, t, l, n, m, h);
  }

  lemma SharedForward<H, R>(net: Net<H, R>, cfg: Config, l: nat, n: nat, h: seq<H>, cs: seq<Cache<R>>, keys: seq<R>, values: seq<R>)
    requires l < |cs| && 0 <= SourceOf(cfg, l) && cs[SourceOf(cfg, l)] == Cache(keys, values)
    requires |keys| == |values| == n + |h| && h != []
    ensures var most := MaxKv(cfg, SourceOf(cfg, l));
            LayerForward(net, cfg, l, h, cs)
            == Ok(Attend(net, cfg, l, h, n, Trim(keys, |h|, most), Trim(values, |h|, most)), cs)
  {
  }

  lemma {:induction false} LayersAgree<H, R>(net: Net<H, R>, cfg: Config, t: seq<int>, l: nat, n: nat, m: nat, h: seq<H>, cs: seq<Cache<R>>)
    requires Sourced(cfg) && l <= cfg.layers && n < m <= |t|
    requires Is(net, cfg, t, l, n, m, h) && Holds(net, cfg, t, cs, l, n, m)
    ensures var r := LayersFrom(net, cfg, l, h, cs);
            r.Ok? && Is(net, cfg, t, cfg.layers, n, m, r.hidden) && Holds(net, cfg, t, r.caches, cfg.layers, n, m)
    decreases cfg.layers - l
  {
    if l < cfg.layers {
      LayerStep(net, cfg, t, l, n, m, h, cs);
      var r := LayerForward(net, cfg, l, h, cs);
      LayersAgree(net, cfg, t, l + 1, n, m, r.hidden, r.caches);
    }
  }

  /** One chunk: from caches that hold n positions to caches that hold m, with the hidden states of
      positions n to m coming out. */
  lemma {:induction false} ChunkAgrees<H, R>(net: Net<H, R>, cfg: Config, t: seq<int>, n: nat, m: nat, cs: seq<Cache<R>>)
    requires Sourced(cfg) && n < m <= |t| && Holds(net, cfg, t, cs, 0, n, n)
    ensures var r := Forward(net, cfg, t[n..m], cs);
            r.Ok? && Is(net, cfg, t, cfg.layers, n, m, r.hidden) && Holds(net, cfg, t, r.caches, 0, m, m)
  {
    var h := Embed(net, t[n..m]);
    assert Is(net, cfg, t, 0, n, m, h);
    LayersAgree(net, cfg, t, 0, n, m, h, cs);
  }

  // ---------------------------------------------------------------- every way of cutting the sequence

  /** Feed t from position n in chunks of the given sizes; the result is all hidden states. */
  function Feed<H, R>(net: Net<H, R>, cfg: Config, t: seq<int>, n: nat, sizes: seq<nat>, cs: seq<Cache<R>>): Result<H, R>
    requires cfg.layers == |cs|
    decreases |sizes|
  {
    if sizes == [] || n + sizes[0] > |t| then Ok([], cs)
    else
      var r := Forward(net, cfg, t[n..n + sizes[0]], cs);
      if r.Failed? || |r.caches| != cfg.layers then Failed
      else
        var rest := Feed(net, cfg, t, n + sizes[0], sizes[1..], r.caches);
        if rest.Failed? then Failed else Ok(r.hidden + rest.hidden, rest.caches)
  }

  ghost function Sum(sizes: seq<nat>): nat {
    if sizes == [] then 0 else sizes[0] + Sum(sizes[1..])
  }

  ghost predicate Positive(sizes: seq<nat>) {
    forall i :: 0 <= i < |sizes| ==> sizes[i] > 0
  }

  lemma JoinChunks<H, R>(net: Net<H, R>, cfg: Config, t: seq<int>, l: nat, n: nat, k: nat, m: nat, a: seq<H>, b: seq<H>)
    requires Sourced(cfg) && l <= cfg.layers && n <= k <= m <= |t|
    requires Is(net, cfg, t, l, n, k, a) && Is(net, cfg, t, l, k, m, b)
    ensures Is(net, cfg, t, l, n, m, a + b)
  {
    forall i | 0 <= i < |a + b|
      ensures (a + b)[i] == Hidden(net, cfg, t, l, n + i)
    {
      if i >= |a| {
        assert b[i - |a|] == Hidden(net, cfg, t, l, k + (i - |a|));
      }
    }
  }

  lemma {:induction false} FeedAgrees<H, R>(net: Net<H, R>, cfg: Config, t: seq<int>, n: nat, sizes: seq<nat>, cs: seq<Cache<R>>)
    requires Sourced(cfg) && Positive(sizes) && n + Sum(sizes) <= |t| && Holds(net, cfg, t, cs, 0, n, n)
    ensures var r := Feed(net, cfg, t, n, sizes, cs); var m := n + Sum(sizes);
            r.Ok? && Is(net, cfg, t, cfg.layers, n, m, r.hidden) && Holds(net, cfg, t, r.caches, 0, m, m)
    decreases |sizes|
  {
    if sizes != [] {
      var k := n + sizes[0];
      ChunkAgrees(net, cfg, t, n, k, cs);
      var r := Forward(net, cfg, t[n..k], cs);
      FeedAgrees(net, cfg, t, k, sizes[1..], r.caches);
      var rest := Feed(net, cfg, t, k, sizes[1..], r.caches);
      JoinChunks(net, cfg, t, cfg.layers, n, k, n + Sum(sizes), r.hidden, rest.hidden);
    }
  }

  function Empty<R>(n: nat): (cs: seq<Cache<R>>)
    ensures |cs| == n && forall i :: 0 <= i < n ==> cs[i] == Cache([], [])
  {
    seq(n, _ => Cache([], []))
  }

  /** Any two ways of cutting the same tokens into chunks give the same hidden state everywhere. */
  lemma {:induction false} CutDoesNotMatter<H, R>(net: Net<H, R>, cfg: Config, t: seq<int>, a: seq<nat>, b: seq<nat>)
    requires Sourced(cfg) && Positive(a) && Positive(b) && Sum(a) == Sum(b) == |t|
    ensures var x := Feed(net, cfg, t, 0, a, Empty(cfg.layers));
            var y := Feed(net, cfg, t, 0, b, Empty(cfg.layers));
            x.Ok? && y.Ok? && |x.hidden| == |t| && x.hidden == y.hidden
  {
    FeedAgrees(net, cfg, t, 0, a, Empty(cfg.layers));
    FeedAgrees(net, cfg, t, 0, b, Empty(cfg.layers));
  }

  /** A hidden state depends only on the tokens up to its position, so what was cached stays right
      when more tokens arrive. */
  lemma {:induction false} HiddenPrefix<H, R>(net: Net<H, R>, cfg: Config, t: seq<int>, u: seq<int>, l: nat, p: nat)
    requires Sourced(cfg) && l <= cfg.layers && p < |t| <= |u| && t == u[..|t|]
    ensures Hidden(net, cfg, t, l, p) == Hidden(net, cfg, u, l, p)
    decreases l, p
  {
    if l > 0 {
      var src, lo := ReadsFrom(cfg, l - 1), WindowStart(cfg, l - 1, p);
      HiddenPrefix(net, cfg, t, u, l - 1, p);
      forall j | lo <= j <= p
        ensures Hidden(net, cfg, t, src, j) == Hidden(net, cfg, u, src, j)
      {
        HiddenPrefix(net, cfg, t, u, src, j);
      }
      assert KeyRows(net, cfg, t, src, lo, p + 1) == KeyRows(net, cfg, u, src, lo, p + 1);
      assert ValueRows(net, cfg, t, src, lo, p + 1) == ValueRows(net, cfg, u, src, lo, p + 1);
    }
  }

  lemma {:induction false} RowsPrefix<H, R>(net: Net<H, R>, cfg: Config, t: seq<int>, u: seq<int>, l: nat)
    requires Sourced(cfg) && l < cfg.layers && |t| <= |u| && t == u[..|t|]
    ensures KeyRows(net, cfg, t, l, 0, |t|) == KeyRows(net, cfg, u, l, 0, |t|)
    ensures ValueRows(net, cfg, t, l, 0, |t|) == ValueRows(net, cfg, u, l, 0, |t|)
  {
    forall p | 0 <= p < |t|
      ensures Hidden(net, cfg, t, l, p) == Hidden(net, cfg, u, l, p)
    {
      HiddenPrefix(net, cfg, t, u, l, p);
    }
  }

  /** Caches that hold all of t hold the first |t| positions of any longer sequence. */
  lemma HoldsPrefix<H, R>(net: Net<H, R>, cfg: Config, t: seq<int>, u: seq<int>, cs: seq<Cache<R>>)
    requires Sourced(cfg) && |t| <= |u| && t == u[..|t|] && Holds(net, cfg, t, cs, 0, |t|, |t|)
    ensures Holds(net, cfg, u, cs, 0, |t|, |t|)
  {
    forall l: nat | l < cfg.layers && !IsShared(cfg, l)
      ensures cs[l] == Cache(KeyRows(net, cfg, u, l, 0, |t|), ValueRows(net, cfg, u, l, 0, |t|))
    {
      RowsPrefix(net, cfg, t, u, l);
    }
  }

  /** Feeding more ids to caches that hold t: they hold everything afterwards, and the last hidden
      state that comes out is that of the definition. */
  lemma {:induction false} ForwardExtends<H, R>(net: Net<H, R>, cfg: Config, t: seq<int>, ids: seq<int>, cs: seq<Cache<R>>)
    requires Sourced(cfg) && ids != [] && Holds(net, cfg, t, cs, 0, |t|, |t|)
    ensures var u := t + ids; var r := Forward(net, cfg, ids, cs);
            && r.Ok? && |r.hidden| == |ids| && Holds(net, cfg, u, r.caches, 0, |u|, |u|)
            && r.hidden[|ids| - 1] == Hidden(net, cfg, u, cfg.layers, |u| - 1)
  {
    var u := t + ids;
    HoldsPrefix(net, cfg, t, u, cs);
    assert u[|t|..|u|] == ids;
    ChunkAgrees(net, cfg, u, |t|, |u|, cs);
  }

  /** A forward over a non-empty chunk fails exactly when some shared layer has no source of its
      type. */
  lemma UnsourcedFails<H, R>(net: Net<H, R>, cfg: Config, ids: seq<int>)
    requires ids != [] && !Sourced(cfg)
    ensures Forward(net, cfg, ids, Empty<R>(cfg.layers)).Failed?
  {
    var l: nat :| l < cfg.layers && IsShared(cfg, l) && SourceOf(cfg, l) < 0;
    UnsourcedFailsFrom(net, cfg, 0, l, Embed(net, ids), Empty<R>(cfg.layers));
  }

  lemma {:induction false} UnsourcedFailsFrom<H, R>(net: Net<H, R>, cfg: Config, l: nat, bad: nat, h: seq<H>, cs: seq<Cache<R>>)
    requires l <= bad < cfg.layers == |cs| && IsShared(cfg, bad) && SourceOf(cfg, bad) < 0
    ensures LayersFrom(net, cfg, l, h, cs).Failed?
    decreases cfg.layers - l
  {
    var r := LayerForward(net, cfg, l, h, cs);
    if l < bad && r.Ok? {
      UnsourcedFailsFrom(net, cfg, l + 1, bad, r.hidden, r.caches);
    }
  }
}
