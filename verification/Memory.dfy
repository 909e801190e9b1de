/**
 The memory estimators. Megabytes are unbounded integers, and float64 is real arithmetic with the source's
 truncations, so every estimate here is the one the source computes where no rounding or overflow interferes.
 */
module Memory {
  import opened Basics
  import opened GoStrings

  // ------------------------------------------------------ parameter counts

  function Clean(s: string): (r: string)
    ensures forall c :: c in r ==> '0' <= c <= '9' || c == '.'
  {
    if s == "" then ""
    else if '0' <= s[0] <= '9' || s[0] == '.' then [s[0]] + Clean(s[1..])
    else Clean(s[1..])
  }

  // The value of decimal digits; other characters do not occur.
  function Digits(s: string, acc: nat): nat {
    if s == "" then acc else Digits(s[1..], 10 * acc + if '0' <= s[0] <= '9' then s[0] as nat - '0' as nat else 0)
  }

  function Scale(n: nat): (r: real)
    ensures r >= 1.0
  {
    if n == 0 then 1.0 else 10.0 * Scale(n - 1)
  }

  // strconv.ParseFloat on digits and dots; it refuses a second dot and a text with no digit.
  function ParseDecimal(s: string): (r: real)
    ensures r >= 0.0
  {
    var parts := Split(s, '.');
    if |parts| == 1 && s != "" then Digits(s, 0) as real
    else if |parts| == 2 && |s| > 1 then Digits(parts[0] + parts[1], 0) as real / Scale(|parts[1]|)
    else 0.0
  }

  function ParseBillions(value: string): (r: real)
    ensures r >= 0.0
  {
    var t := ToLower(TrimSpace(value));
    var n := ParseDecimal(Clean(t));
    if 'b' in t then n else if 'm' in t then n / 1000.0 else n
  }

  // ------------------------------------------------------------ estimators

  predicate Mentions(s: string, part: string) {
    part <= s || (s != "" && Mentions(s[1..], part))
  }

  function QuantBytes(value: string): (r: real)
    ensures r >= 0.37
  {
    var q := ToLower(TrimSpace(value));
    if q in {"f16", "fp16", "bf16"} then 2.0
    else if q in {"q8_0", "int8"} then 1.05
    else if q == "q6_k" then 0.80
    else if q == "q5_k_m" then 0.68
    else if q in {"q4_k_m", "q4", "int4", "awq", "gptq"} then 0.58
    else if q == "q3_k_m" then 0.48
    else if q == "q2_k" then 0.37
    else 1.05
  }

  /** A parameter in an n-bit format takes n bits and at most an eighth of a byte or so more. */
  lemma BitsPerParameter(value: string, n: int)
    requires (ToLower(TrimSpace(value)), n)
             in {("f16", 16), ("q8_0", 8), ("q6_k", 6), ("q5_k_m", 5), ("q4_k_m", 4), ("q3_k_m", 3), ("q2_k", 2)}
    ensures n as real / 8.0 <= QuantBytes(value) <= n as real / 8.0 + 0.12
  {
  }

  function InferQuant(modelId: string): string {
    var id := ToLower(modelId);
    if Mentions(id, "q8") then "q8_0"
    else if Mentions(id, "q6") then "q6_k"
    else if Mentions(id, "q5") then "q5_k_m"
    else if Mentions(id, "q4") then "q4_k_m"
    else if Mentions(id, "q3") then "q3_k_m"
    else if Mentions(id, "q2") then "q2_k"
    else "q8_0"
  }

  function Overhead(runtime: string): (r: nat)
    ensures 640 <= r <= 1536
  {
    var r := ToLower(TrimSpace(runtime));
    if r == "vllm" then 1024
    else if r == "tensorrt" then 1536
    else if r in {"llamacpp", "quantcpp"} then 768
    else if r == "mlx" then 640
    else 700
  }

  function Layers(billions: real): int { Clamp((billions * 8.0).Floor, 16, 120) }

  function KvHeads(billions: real): int { Clamp((billions * 4.0).Floor, 8, 128) }

  function EffectiveContext(context: int): (c: int)
    ensures c > 0
  {
    if context <= 0 then 4096 else context
  }

  // Keys and values of 128-wide heads at two bytes each.
  function KvCacheMB(billions: real, context: int): (mb: int)
    ensures mb >= 128
  {
    var bytes := 2 * Layers(billions) * KvHeads(billions) * 128 * EffectiveContext(context) * 2;
    var mb := bytes / (1024 * 1024);
    if mb < 128 then 128 else mb
  }

  function GuessBillions(modelId: string): (r: real)
    ensures r > 0.0
  {
    var id := ToLower(modelId);
    if Mentions(id, "70b") then 70.0
    else if Mentions(id, "34b") then 34.0
    else if Mentions(id, "13b") then 13.0
    else if Mentions(id, "8b") then 8.0
    else 7.0
  }

  function DenseBillions(modelId: string, parameterCount: string): (r: real)
    ensures r > 0.0
  {
    if ParseBillions(parameterCount) > 0.0 then ParseBillions(parameterCount) else GuessBillions(modelId)
  }

  function WeightsMB(billions: real, quant: string): (mb: int)
    requires billions > 0.0
    ensures mb >= 0
  {
    (billions * QuantBytes(quant) * 1024.0).Floor
  }

  function EstimateVRAM(modelId: string, runtime: string, parameterCount: string, quantization: string,
                        context: int, isMoe: bool, activeParams: string): (mb: int)
    ensures mb >= 128 + 640
  {
    var dense := DenseBillions(modelId, parameterCount);
    var active := ParseBillions(activeParams);
    var weights := if isMoe && active > 0.0 then active else dense;
    var quant := if Blank(quantization) then InferQuant(modelId) else TrimSpace(quantization);
    WeightsMB(weights, quant) + KvCacheMB(dense, context) + Overhead(runtime)
  }

  function HeadroomMB(total: int, unified: bool): (mb: int)
    ensures mb >= 2048
  {
    if total <= 0 then (if unified then 4096 else 2048)
    else
      var share := (total as real * if unified then 0.15 else 0.10).Floor;
      var minimum := if unified then 4096 else 2048;
      if share < minimum then minimum else share
  }

  // Whole megabytes of so many parameters of so many bytes.
  ghost predicate WholeMB(mb: int, billions: real, bytes: real) {
    mb as real <= billions * bytes * 1024.0 < mb as real + 1.0
  }

  lemma WeightsAreWhole(billions: real, quant: string)
    requires billions > 0.0
    ensures WholeMB(WeightsMB(billions, quant), billions, QuantBytes(quant))
  {
  }

  /** The parts of an estimate: the weights, of the active parameters if declared, the cache, and the runtime. */
  lemma EstimateParts(id: string, rt: string, count: string, quant: string, c: int, moe: bool, active: string)
      returns (weights: int)
    ensures EstimateVRAM(id, rt, count, quant, c, moe, active)
            == weights + KvCacheMB(DenseBillions(id, count), c) + Overhead(rt)
    ensures WholeMB(weights,
                    if moe && ParseBillions(active) > 0.0 then ParseBillions(active) else DenseBillions(id, count),
                    QuantBytes(if TrimSpace(quant) == "" then InferQuant(id) else TrimSpace(quant)))
  {
    var billions := if moe && ParseBillions(active) > 0.0 then ParseBillions(active) else DenseBillions(id, count);
    var q := if Blank(quant) then InferQuant(id) else TrimSpace(quant);
    weights := WeightsMB(billions, q);
    WeightsAreWhole(billions, q);
  }

  /** Declaring more parameters never lowers the estimate of a dense model. */
  lemma EstimateMonotoneInParameters(id: string, rt: string, p: string, q: string, quant: string, c: int)
    requires 0.0 < ParseBillions(p) <= ParseBillions(q)
    ensures EstimateVRAM(id, rt, p, quant, c, false, "") <= EstimateVRAM(id, rt, q, quant, c, false, "")
  {
    WeightsGrow(ParseBillions(p), ParseBillions(q), if Blank(quant) then InferQuant(id) else TrimSpace(quant));
    KvCacheMonotone(ParseBillions(p), ParseBillions(q), c, c);
  }

  // ---------------------------------------------------------------- bounds

  // The byte count in megabytes, without the factors that cancel.
  lemma KvCacheShort(billions: real, context: int)
    ensures KvCacheMB(billions, context)
            == Max(128, Layers(billions) * KvHeads(billions) * EffectiveContext(context) / 2048)
  {
    Cancel(Layers(billions) * KvHeads(billions) * EffectiveContext(context));
    Factors(Layers(billions), KvHeads(billions), EffectiveContext(context));
  }

  lemma Factors(l: int, k: int, c: int)
    ensures 2 * l * k * 128 * c * 2 == l * k * c * 512
  {
  }

  lemma Cancel(n: int)
    ensures n * 512 / (1024 * 1024) == n / 2048
  {
  }

  /**
   The cache by its formula: eight layers for every billion parameters, from 16 to 120, four key-value heads, from 8
   to 128, and per layer, head and token half a kilobyte.
   */
  lemma KvCacheMeans(billions: real, context: int)
    ensures var layers, heads := Clamp((billions * 8.0).Floor, 16, 120), Clamp((billions * 4.0).Floor, 8, 128);
            var tokens := if context <= 0 then 4096 else context;
            KvCacheMB(billions, context) == Max(128, layers * heads * tokens / 2048)
  {
    KvCacheShort(billions, context);
  }

  lemma MulLe(a: int, b: int, c: int)
    requires a <= b && c >= 0
    ensures a * c <= b * c
  {
  }

  lemma DivLe(a: int, b: int)
    requires a <= b
    ensures a / 2048 <= b / 2048
  {
  }

  lemma ProductBounds(l: int, k: int)
    requires 16 <= l <= 120 && 8 <= k <= 128
    ensures 128 <= l * k <= 15360
  {
    MulLe(16, l, k);
    MulLe(l, 120, k);
  }

  /** The cache for a context of c tokens takes between c/16 and 7.5 c megabytes, and never less than 128. */
  lemma KvCacheBounds(billions: real, context: int)
    requires context > 0
    ensures Max(128, context / 16) <= KvCacheMB(billions, context) <= Max(128, 15 * context / 2)
  {
    var heads := Layers(billions) * KvHeads(billions);
    KvCacheShort(billions, context);
    ProductBounds(Layers(billions), KvHeads(billions));
    MulLe(128, heads, context);
    MulLe(heads, 15360, context);
    DivLe(128 * context, heads * context);
    DivLe(heads * context, 15360 * context);
  }

  lemma FloorLe(a: real, b: real)
    requires a <= b
    ensures a.Floor <= b.Floor
  {
  }

  lemma HeadsGrow(p: real, q: real)
    requires p <= q
    ensures Layers(p) * KvHeads(p) <= Layers(q) * KvHeads(q)
  {
    FloorLe(p * 8.0, q * 8.0);
    FloorLe(p * 4.0, q * 4.0);
    MulLe(Layers(p), Layers(q), KvHeads(p));
    MulLe(KvHeads(p), KvHeads(q), Layers(q));
  }

  /** More parameters or more context never need a smaller cache. */
  lemma KvCacheMonotone(p: real, q: real, c: int, d: int)
    requires p <= q && EffectiveContext(c) <= EffectiveContext(d)
    ensures KvCacheMB(p, c) <= KvCacheMB(q, d)
  {
    KvCacheShort(p, c);
    KvCacheShort(q, d);
    HeadsGrow(p, q);
    ProductBounds(Layers(q), KvHeads(q));
    ScaledLe(Layers(p) * KvHeads(p), Layers(q) * KvHeads(q), EffectiveContext(c), EffectiveContext(d));
  }

  lemma ScaledLe(a: int, b: int, x: int, y: int)
    requires a <= b && 0 <= x <= y && 0 <= b
    ensures a * x / 2048 <= b * y / 2048
  {
    MulLe(a, b, x);
    MulLe(x, y, b);
    DivLe(a * x, b * y);
  }

  // In the effective context, where an unset one stands for 4096 tokens, the estimate only grows.
  lemma EstimateFollowsContext(id: string, rt: string, count: string, quant: string, c: int, d: int, moe: bool,
                               active: string)
    requires EffectiveContext(c) <= EffectiveContext(d)
    ensures EstimateVRAM(id, rt, count, quant, c, moe, active) <= EstimateVRAM(id, rt, count, quant, d, moe, active)
  {
    var dense := DenseBillions(id, count);
    KvCacheMonotone(dense, dense, c, d);
  }

  // Fewer than 4096 tokens always take less than the 4096 of an unset context.
  lemma BelowUnset(heads: int, d: int)
    requires 128 <= heads && 0 < d < 4096
    ensures heads * 4096 / 2048 == 2 * heads && heads * d / 2048 < 2 * heads
  {
    MulLe(d, 4095, heads);
    assert heads * d <= heads * 4095 < heads * 4096;
  }

  /** As the raw context grows the cache shrinks exactly where an unset context gives way to a set one below 4096. */
  lemma KvCacheDips(billions: real, c: int, d: int)
    requires c <= d
    ensures KvCacheMB(billions, c) > KvCacheMB(billions, d) <==> c <= 0 < d < 4096
  {
    if c <= 0 < d < 4096 {
      KvCacheShort(billions, c);
      KvCacheShort(billions, d);
      ProductBounds(Layers(billions), KvHeads(billions));
      BelowUnset(Layers(billions) * KvHeads(billions), d);
    } else {
      KvCacheMonotone(billions, billions, c, d);
    }
  }

  /** For every model the estimate is monotone in the raw context, except from an unset one to a set one below 4096. */
  lemma EstimateMonotoneInContext(id: string, rt: string, count: string, quant: string, c: int, d: int, moe: bool,
                                  active: string)
    requires c <= d
    ensures EstimateVRAM(id, rt, count, quant, c, moe, active) <= EstimateVRAM(id, rt, count, quant, d, moe, active)
            <==> !(c <= 0 < d < 4096)
  {
    KvCacheDips(DenseBillions(id, count), c, d);
  }

  /** Declaring a model a mixture of experts never raises its estimate, as long as no more is active than there is. */
  lemma MoeNeverHigher(id: string, rt: string, count: string, quant: string, c: int, active: string)
    requires ParseBillions(active) <= DenseBillions(id, count)
    ensures EstimateVRAM(id, rt, count, quant, c, true, active) <= EstimateVRAM(id, rt, count, quant, c, false, active)
  {
    if ParseBillions(active) > 0.0 {
      WeightsGrow(ParseBillions(active), DenseBillions(id, count),
                  if Blank(quant) then InferQuant(id) else TrimSpace(quant));
    }
  }

  lemma WeightsGrow(p: real, q: real, quant: string)
    requires 0.0 < p <= q
    ensures WeightsMB(p, quant) <= WeightsMB(q, quant)
  {
    RealMulLe(p, q, QuantBytes(quant));
    FloorLe(p * QuantBytes(quant) * 1024.0, q * QuantBytes(quant) * 1024.0);
  }

  lemma RealMulLe(a: real, b: real, c: real)
    requires a <= b && c >= 0.0
    ensures a * c <= b * c
  {
  }

  /** Headroom is the larger of a fixed floor and a tenth of the memory, 15 percent if unified, in whole megabytes. */
  lemma HeadroomIsLarger(total: int, unified: bool)
    ensures HeadroomMB(total, unified) ==
            Max(if unified then 4096 else 2048,
                if total <= 0 then 0 else if unified then 15 * total / 100 else total / 10)
  {
    if total > 0 {
      var share := (total as real * if unified then 0.15 else 0.10).Floor;
      assert share == if unified then 15 * total / 100 else total / 10;
    }
  }
}
