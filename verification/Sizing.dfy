/** Sizing a deployment: bytes per token and per block, the block count a memory budget allows,
    the batch limits that follow, and the tensor-parallel degree. Integers are unbounded here: overflow of
    Redline's 64-bit products is not modelled. */
module Sizing {
  datatype Geometry = Geometry(layers: int, heads: int, kvHeads: int, hidden: int, context: int)

  const BLOCK_SIZE := 16
  const TOKEN_CEILING := 8192

  /** Division truncating toward zero, by a positive divisor. */
  function Quot(a: int, b: int): int
    requires b > 0
  {
    if a >= 0 then a / b else -((-a) / b)
  }

  function KvHeads(g: Geometry): int { if g.kvHeads <= 0 then g.heads else g.kvHeads }

  /** Two tensors of two-byte elements per layer; 0 for a geometry that makes no sense. */
  function BytesPerToken(g: Geometry): int {
    if g.layers <= 0 || g.heads <= 0 || g.hidden <= 0 then 0
    else 2 * g.layers * KvHeads(g) * (g.hidden / g.heads) * 2
  }

  /** One layer, head by head: a key and a value vector of two-byte elements each. */
  function LayerBytes(kvHeads: nat, headDim: nat): int {
    if kvHeads == 0 then 0 else LayerBytes(kvHeads - 1, headDim) + (headDim + headDim) * 2
  }

  function CacheBytes(layers: nat, kvHeads: nat, headDim: nat): int {
    if layers == 0 then 0 else CacheBytes(layers - 1, kvHeads, headDim) + LayerBytes(kvHeads, headDim)
  }

  lemma {:induction false} LayerBytesIs(kvHeads: nat, headDim: nat)
    ensures LayerBytes(kvHeads, headDim) == 4 * (kvHeads * headDim)
  {
    if kvHeads > 0 {
      LayerBytesIs(kvHeads - 1, headDim);
      assert kvHeads * headDim == (kvHeads - 1) * headDim + headDim;
    }
  }

  lemma {:induction false} CacheBytesIs(layers: nat, kvHeads: nat, headDim: nat, cells: int)
    requires cells == kvHeads * headDim
    ensures CacheBytes(layers, kvHeads, headDim) == 4 * (layers * cells)
  {
    if layers > 0 {
      CacheBytesIs(layers - 1, kvHeads, headDim, cells);
      LayerBytesIs(kvHeads, headDim);
      assert layers * cells == (layers - 1) * cells + cells;
    }
  }

  /** Bytes per token is the cache summed over layers, heads, keys and values; without shared
      key-value heads, and heads that divide the hidden size, it is four bytes per layer and hidden unit. */
  lemma {:induction false} BytesPerTokenIsSum(g: Geometry)
    requires g.layers > 0 && g.heads > 0 && g.hidden > 0
    ensures BytesPerToken(g) == CacheBytes(g.layers, if g.kvHeads > 0 then g.kvHeads else g.heads, g.hidden / g.heads)
    ensures g.kvHeads <= 0 && g.hidden % g.heads == 0 ==> BytesPerToken(g) == 4 * (g.layers * g.hidden)
  {
    var headDim := g.hidden / g.heads;
    var cells := KvHeads(g) * headDim;
    CacheBytesIs(g.layers, KvHeads(g), headDim, cells);
    Regroup(g.layers, KvHeads(g), headDim);
    assert KvHeads(g) * (g.layers * headDim) == g.layers * cells;
    assert g.hidden == g.heads * headDim + g.hidden % g.heads;
  }

  datatype KvConfig = Blocks(blocks: int) | InvalidGeometry | BudgetTooSmall

  function RenderKvCache(g: Geometry, budget: int): KvConfig {
    var perToken := BytesPerToken(g);
    if perToken <= 0 then InvalidGeometry
    else
      var blocks := Quot(budget, perToken * BLOCK_SIZE);
      if blocks <= 0 then BudgetTooSmall else Blocks(blocks)
  }

  datatype Batching = Batching(maxTokens: int, maxSeqs: int)

  function Clamp(x: int, lo: int, hi: int): int { if x > hi then hi else if x < lo then lo else x }

  function RenderBatching(blocks: int, maxModelLen: int): Batching {
    var total := BLOCK_SIZE * blocks;
    var seqs := if maxModelLen > 0 then Quot(total, maxModelLen) else 1;
    Batching(Clamp(total, 1, TOKEN_CEILING), if seqs < 1 then 1 else seqs)
  }

  lemma {:induction false} NextMultiple(q: int, b: int)
    ensures (q + 1) * b == q * b + b
  {
  }

  lemma {:induction false} ScaleLe(a: int, b: int, k: int)
    requires a <= b && k >= 0
    ensures a * k <= b * k
  {
  }

  lemma {:induction false} ScaleLt(a: int, b: int, k: int)
    requires a * k < b * k && k >= 0
    ensures a < b
  {
    if b <= a {
      ScaleLe(b, a, k);
    }
  }

  lemma {:induction false} DivExact(a: int, b: int, q: int)
    requires a >= 0 && b > 0 && q == a / b
    ensures q * b <= a < (q + 1) * b && q >= 0
    ensures q >= 1 <==> a >= b
  {
    assert a == q * b + a % b;
    NextMultiple(q, b);
    ScaleLt(0, q + 1, b);
    if a >= b {
      ScaleLt(1, q + 1, b);
    } else {
      ScaleLt(q, 1, b);
    }
  }

  lemma {:induction false} QuotExact(a: int, b: int)
    requires b > 0
    ensures a >= 0 ==> Quot(a, b) * b <= a < (Quot(a, b) + 1) * b
    ensures Quot(a, b) >= 1 <==> a >= b
  {
    if a >= 0 {
      DivExact(a, b, a / b);
    } else {
      DivExact(-a, b, (-a) / b);
    }
  }

  /** The block count is the largest that fits the budget, and sizing fails on the budget exactly
      when not even one block fits. */
  lemma {:induction false} BlocksAreLargest(g: Geometry, budget: int, n: int)
    requires BytesPerToken(g) > 0
    ensures var perBlock, r := BytesPerToken(g) * BLOCK_SIZE, RenderKvCache(g, budget);
            && (r.BudgetTooSmall? <==> budget < perBlock)
            && !r.InvalidGeometry?
            && (r.Blocks? ==> r.blocks * perBlock <= budget && (n * perBlock <= budget ==> n <= r.blocks))
  {
    var perBlock := BytesPerToken(g) * BLOCK_SIZE;
    QuotExact(budget, perBlock);
    var r := RenderKvCache(g, budget);
    if r.Blocks? && n * perBlock <= budget {
      ScaleLt(n, r.blocks + 1, perBlock);
    }
  }

  /** The sizings compose: when one full-length sequence fits the cache, all the sequences admitted fit
      the memory budget at full length, and one more would not fit the blocks. When it does not, one sequence
      is admitted all the same, and it is exactly then that the admitted ones do not fit. */
  lemma {:induction false} SequencesFitBudget(g: Geometry, budget: int, maxModelLen: int)
    requires RenderKvCache(g, budget).Blocks? && maxModelLen > 0
    ensures var blocks := RenderKvCache(g, budget).blocks;
            var Batching(tokens, seqs) := RenderBatching(blocks, maxModelLen);
            && 1 <= tokens <= BLOCK_SIZE * blocks && tokens <= TOKEN_CEILING
            && (tokens == BLOCK_SIZE * blocks || tokens == TOKEN_CEILING)
            && (seqs * maxModelLen <= BLOCK_SIZE * blocks <==> maxModelLen <= BLOCK_SIZE * blocks)
            && (maxModelLen <= BLOCK_SIZE * blocks ==>
                  && seqs * maxModelLen * BytesPerToken(g) <= budget
                  && (seqs + 1) * maxModelLen > BLOCK_SIZE * blocks)
  {
    var perToken := BytesPerToken(g);
    var blocks := RenderKvCache(g, budget).blocks;
    var total := BLOCK_SIZE * blocks;
    BlocksAreLargest(g, budget, blocks);
    QuotExact(total, maxModelLen);
    var seqs := RenderBatching(blocks, maxModelLen).maxSeqs;
    if maxModelLen <= total {
      ScaleLe(seqs * maxModelLen, total, perToken);
      BlockBytes(blocks, perToken);
    }
  }

  lemma {:induction false} Regroup(layers: int, heads: int, headDim: int)
    ensures 2 * layers * heads * headDim * 2 == 4 * (heads * (layers * headDim))
  {
    assert layers * heads * headDim == heads * (layers * headDim);
  }

  lemma {:induction false} PositiveProduct(a: int, b: int)
    requires a > 0 && b > 0
    ensures a * b > 0
  {
  }

  /** Which geometries are refused: those without layers or heads, or with a hidden size below the head count. */
  lemma {:induction false} InvalidGeometryExactly(g: Geometry, budget: int)
    ensures RenderKvCache(g, budget).InvalidGeometry? <==> g.layers <= 0 || g.heads <= 0 || g.hidden < g.heads
  {
    if g.layers > 0 && g.heads > 0 && g.hidden > 0 {
      var headDim := g.hidden / g.heads;
      DivExact(g.hidden, g.heads, headDim);
      Regroup(g.layers, KvHeads(g), headDim);
      if headDim >= 1 {
        PositiveProduct(g.layers, headDim);
        PositiveProduct(KvHeads(g), g.layers * headDim);
      }
    }
  }

  /** Whatever the cache, at least one sequence and one token are admitted, and at most 8192 tokens; a
      model without a length gets one sequence, and blocks hold 16 tokens. */
  lemma {:induction false} BatchingFloor(blocks: int, maxModelLen: int)
    ensures var Batching(tokens, seqs) := RenderBatching(blocks, maxModelLen);
            && seqs >= 1 && (maxModelLen <= 0 ==> seqs == 1)
            && 1 <= tokens <= 8192 && (1 <= 16 * blocks <= 8192 ==> tokens == 16 * blocks)
            && (blocks <= 0 ==> tokens == 1) && (16 * blocks > 8192 ==> tokens == 8192)
  {
  }

  lemma {:induction false} PerTokenGrows(g: Geometry, fewer: int)
    requires 0 < fewer <= KvHeads(g)
    ensures 0 <= BytesPerToken(g.(kvHeads := fewer)) <= BytesPerToken(g)
    ensures BytesPerToken(g) > 0 ==> BytesPerToken(g.(kvHeads := fewer)) > 0
  {
    if g.layers > 0 && g.heads > 0 && g.hidden > 0 {
      var headDim := g.hidden / g.heads;
      var cells := g.layers * headDim;
      DivExact(g.hidden, g.heads, headDim);
      ScaleLe(0, g.layers, headDim);
      Regroup(g.layers, KvHeads(g), headDim);
      Regroup(g.layers, fewer, headDim);
      ScaleLe(0, fewer, cells);
      ScaleLe(fewer, KvHeads(g), cells);
      if cells > 0 {
        PositiveProduct(fewer, cells);
      }
    }
  }

  /** Grouped-query attention pays: sharing key-value heads never yields fewer blocks. */
  lemma {:induction false} FewerHeadsNeverFewerBlocks(g: Geometry, fewer: int, budget: int)
    requires 0 < fewer <= KvHeads(g) && RenderKvCache(g, budget).Blocks?
    ensures var r := RenderKvCache(g.(kvHeads := fewer), budget);
            r.Blocks? && r.blocks >= RenderKvCache(g, budget).blocks
  {
    var g' := g.(kvHeads := fewer);
    var n := RenderKvCache(g, budget).blocks;
    PerTokenGrows(g, fewer);
    BlocksAreLargest(g, budget, n);
    BlocksAreLargest(g', budget, n);
    BlocksAreLargest(g', budget, 1);
    var perBlock', perBlock := BytesPerToken(g') * BLOCK_SIZE, BytesPerToken(g) * BLOCK_SIZE;
    ScaleLe(perBlock', perBlock, n);
  }

  // ---------------------------------------------------------------------------
  // The tensor-parallel degree
  // ---------------------------------------------------------------------------

  datatype Profile = Profile(gpus: int, vramPerGpu: int)

  datatype EngineArgs = Args(maxModelLen: int, tensorParallel: int) | InvalidProfile | ExceedsNode

  /** The least degree whose memory covers the footprint: max(1, ceil(footprint / vram)). */
  function Degree(footprint: int, vram: int): int
    requires vram > 0
  {
    if footprint <= vram then 1 else (footprint + vram - 1) / vram
  }

  lemma {:induction false} DegreeIsLeast(footprint: int, vram: int, d: int)
    requires vram > 0 && d >= 1
    ensures Degree(footprint, vram) >= 1
    ensures d * vram >= footprint <==> d >= Degree(footprint, vram)
  {
    var least := Degree(footprint, vram);
    if footprint > vram {
      QuotExact(footprint + vram - 1, vram);
      assert least * vram <= footprint + vram - 1 < (least + 1) * vram;
      assert (least + 1) * vram == least * vram + vram;
      if d >= least {
        ScaleLe(least, d, vram);
      } else {
        ScaleLe(d, least - 1, vram);
        assert (least - 1) * vram == least * vram - vram;
      }
    } else {
      ScaleLe(1, d, vram);
    }
  }

  /** The degree search: it finds the least degree that covers the footprint, and fails if and
      only if that exceeds the node. */
  method RenderEngineArgs(g: Geometry, footprint: int, profile: Profile) returns (r: EngineArgs)
    ensures r.InvalidProfile? <==> profile.gpus <= 0 || profile.vramPerGpu <= 0
    ensures r.ExceedsNode? <==> profile.gpus > 0 && profile.vramPerGpu > 0
                                && Degree(footprint, profile.vramPerGpu) > profile.gpus
    ensures r.Args? ==> r.maxModelLen == g.context
                        && profile.vramPerGpu > 0 && r.tensorParallel == Degree(footprint, profile.vramPerGpu)
  {
    if profile.gpus <= 0 || profile.vramPerGpu <= 0 {
      return InvalidProfile;
    }
    var degree := 1;
    DegreeIsLeast(footprint, profile.vramPerGpu, 1);
    while degree <= profile.gpus
      invariant 1 <= degree <= profile.gpus + 1
      invariant degree <= Degree(footprint, profile.vramPerGpu)
    {
      DegreeIsLeast(footprint, profile.vramPerGpu, degree);
      if degree * profile.vramPerGpu >= footprint {
        return Args(g.context, degree);
      }
      degree := degree + 1;
    }
    r := ExceedsNode;
  }

  datatype Estimate = Estimate(weights: int, kvCache: int, total: int)
  datatype Footprint = Footprint(fp16: Estimate, fp8: Estimate, int4: Estimate)

  function ComputeFootprint(params: int, g: Geometry): Footprint {
    var kv := if g.context <= 0 then 0 else BytesPerToken(g) * g.context;
    var build := (weights: int) => Estimate(weights, kv, weights + kv);
    Footprint(build(params * 2), build(params), build(Quot(params + 1, 2)))
  }

  /** Footprints by their parts: two bytes, one byte and half a byte rounded up per parameter, plus the
      same cache for all three, which is that of one sequence of context tokens. */
  lemma {:induction false} FootprintAddsUp(params: int, g: Geometry)
    ensures var f := ComputeFootprint(params, g);
            && f.fp16.weights == params + params && f.fp8.weights == params
            && (params >= 0 ==> params <= f.int4.weights + f.int4.weights <= params + 1)
            && (params < 0 ==> params + 1 <= f.int4.weights + f.int4.weights <= params + 2)
            && f.fp16.kvCache == f.fp8.kvCache == f.int4.kvCache
            && (g.context <= 0 ==> f.fp16.kvCache == 0)
            && (g.context > 0 ==>
                  f.fp16.kvCache == g.context * BytesPerToken(g))
            && f.fp16.total == f.fp16.weights + f.fp16.kvCache
            && f.fp8.total == f.fp8.weights + f.fp8.kvCache
            && f.int4.total == f.int4.weights + f.int4.kvCache
  {
  }

  lemma {:induction false} DegreeGrows(a: int, b: int, vram: int)
    requires vram > 0 && a <= b
    ensures Degree(a, vram) <= Degree(b, vram)
  {
    DegreeIsLeast(b, vram, 1);
    DegreeIsLeast(b, vram, Degree(b, vram));
    DegreeIsLeast(a, vram, Degree(b, vram));
  }

  /** Quantizing never needs more GPUs, and INT4 wastes at most half a byte. */
  lemma {:induction false} QuantizingNeverNeedsMore(params: nat, g: Geometry, vram: int)
    requires vram > 0
    ensures var f := ComputeFootprint(params, g);
            && Degree(f.int4.total, vram) <= Degree(f.fp8.total, vram) <= Degree(f.fp16.total, vram)
            && params <= 2 * f.int4.weights <= params + 1
  {
    var f := ComputeFootprint(params, g);
    DegreeGrows(f.int4.total, f.fp8.total, vram);
    DegreeGrows(f.fp8.total, f.fp16.total, vram);
  }

  /** The cache a footprint reserves, sized into blocks: it gives context / 16 blocks, so the one
      full-length sequence it was computed for fits if and only if the block size divides the context. */
  lemma {:induction false} ReservedCacheHoldsContext(params: int, g: Geometry)
    requires BytesPerToken(g) > 0 && g.context > 0
    ensures var r := RenderKvCache(g, ComputeFootprint(params, g).fp16.kvCache);
            && (r.BudgetTooSmall? <==> g.context < BLOCK_SIZE)
            && (r.Blocks? ==> r.blocks == g.context / BLOCK_SIZE)
            && (r.Blocks? ==> (g.context <= BLOCK_SIZE * r.blocks <==> g.context % BLOCK_SIZE == 0))
  {
    var perToken, n := BytesPerToken(g), g.context / BLOCK_SIZE;
    var reserved := perToken * g.context;
    BlockBytes(n, perToken);
    BlockBytes(n + 1, perToken);
    ScaleLe(n * BLOCK_SIZE, g.context, perToken);
    BlocksAreLargest(g, reserved, n);
    BlocksAreLargest(g, reserved, n + 1);
    LessThanNext(g.context, (n + 1) * BLOCK_SIZE, perToken);
    if g.context < BLOCK_SIZE {
      LessThanNext(g.context, BLOCK_SIZE, perToken);
    } else {
      ScaleLe(BLOCK_SIZE, g.context, perToken);
      var r := RenderKvCache(g, reserved);
      if r.blocks > n {
        ScaleLe(n + 1, r.blocks, perToken * BLOCK_SIZE);
      }
    }
  }

  lemma {:induction false} BlockBytes(n: int, perToken: int)
    ensures n * (perToken * BLOCK_SIZE) == (n * BLOCK_SIZE) * perToken
  {
  }

  lemma {:induction false} LessThanNext(a: int, b: int, k: int)
    requires a < b && k > 0
    ensures a * k < b * k
  {
    NextMultiple(a, k);
    ScaleLe(a + 1, b, k);
  }

  /** Both fail on the smallest model, 4 bytes per token, with a context of 17: a budget of one block admits a
      sequence that does not fit it, and the cache the footprint reserves comes to one block too. */
  lemma {:induction false} SeventeenTokens(params: int)
    ensures var g := Geometry(1, 1, 0, 1, 17);
            && RenderKvCache(g, 64) == Blocks(1) && RenderBatching(1, 17).maxSeqs == 1 && 17 > BLOCK_SIZE * 1
            && RenderKvCache(g, ComputeFootprint(params, g).fp16.kvCache) == Blocks(1)
  {
  }
}
