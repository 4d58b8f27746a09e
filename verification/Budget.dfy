/** The start-up memory check on a unified-memory host (internal/runtime/preflight.go). */
module Budget {
  import opened Wrappers
  import opened Text
  import opened Flags
  import opened Manifest
  import opened Engine

  const TWO63: int := 0x8000_0000_0000_0000
  const HOST_FLOOR: int := 0x2_0000_0000 // 8 GiB

  /** A byte count as Go holds it: a non-negative int64. */
  type Size = n: int | 0 <= n < TWO63

  /** int64 addition wraps around. */
  function Wrap64(n: int): (r: int)
    ensures -TWO63 <= r < TWO63
    ensures -TWO63 <= n < TWO63 ==> r == n
    ensures TWO63 <= n < 3 * TWO63 ==> r == n - 2 * TWO63
  {
    (n + TWO63) % (2 * TWO63) - TWO63
  }

  /** int64(frac * total); outside int64 (and for NaN) Go leaves the result to the machine. */
  function EngineBytes(f: Float, total: Size, undefined: int): int {
    if f.Finite? && -TWO63 <= Share(f.v, total) < TWO63 then Share(f.v, total) else undefined
  }

  function Share(f: real, total: nat): int { (f * total as real).Floor }

  // ----- sizing the checkpoint -----

  datatype WalkEntry = Directory | File(size: nat) | Unreadable

  function SumSizes(walk: seq<WalkEntry>): nat {
    if walk == [] then 0
    else SumSizes(walk[..|walk| - 1]) + if walk[|walk| - 1].File? then walk[|walk| - 1].size else 0
  }

  /** dirBytes: totals the regular files, giving up at the first entry it cannot read. */
  method DirBytes(walk: seq<WalkEntry>) returns (total: nat, failed: bool)
    ensures failed <==> Unreadable in walk
    ensures !failed ==> total == SumSizes(walk)
  {
    total := 0;
    for i := 0 to |walk|
      invariant Unreadable !in walk[..i]
      invariant total == SumSizes(walk[..i])
    {
      assert walk[..i + 1][..i] == walk[..i];
      if walk[i].Unreadable? {
        return total, true;
      }
      if walk[i].File? {
        total := total + walk[i].size;
      }
    }
    assert walk[..|walk|] == walk;
    failed := false;
  }

  // ----- the check -----

  /** Any runtime but sglang is read like vllm. */
  function MemFractionFlagFor(m: Manifest): (flag: string)
    ensures m.runtime in MEM_FRACTION_FLAGS ==> flag == MEM_FRACTION_FLAGS[m.runtime]
  {
    if m.runtime == SGLANG then STATIC_FRACTION_FLAG else GPU_UTILIZATION_FLAG
  }

  /** The fraction the manifest's own arguments state; the speculator's are not looked at. */
  function EngineFraction(m: Manifest, parse: string -> Option<Float>): Option<Float> {
    var v := FlagValue(m.args, MemFractionFlagFor(m));
    if v.None? then None
    else
      var f := parse(v.value);
      if f.None? || AtMost(f.value, 0.0) then None else f
  }

  function Need(f: Float, total: Size, ckpt: Size, undefined: int): int {
    Wrap64(Wrap64(EngineBytes(f, total, undefined) + ckpt) + HOST_FLOOR)
  }

  /** What would have fitted, in hundredths rounded down: int(free / total * 100) in exact arithmetic. */
  function SafePercent(total: Size, ckpt: Size): nat {
    var free := total - ckpt - HOST_FLOOR;
    if free < 0 then 0 else 100 * free / total
  }

  lemma DivBounds(n: nat, d: nat)
    requires d > 0
    ensures n / d * d <= n < (n / d + 1) * d
  {
    assert n == n / d * d + n % d;
  }

  /** The engine's share at a whole number of hundredths. */
  lemma PercentShare(k: nat, total: nat)
    ensures Share(k as real / 100.0, total) == k * total / 100
  {
    var n := k * total;
    assert k as real * total as real == n as real;
    assert k as real / 100.0 * total as real == n as real / 100.0;
    assert n == 100 * (n / 100) + n % 100;
  }

  lemma MulMono(a: real, b: real, c: real)
    requires a <= b && c >= 0.0
    ensures a * c <= b * c
  {
  }

  datatype Refusal = Refused(safePercent: nat)

  /** None for a pool or checkpoint that cannot be measured: the check is then skipped. */
  function CheckMemoryBudget(m: Manifest, total: Option<Size>, ckpt: Option<Size>, undefined: int,
                             parse: string -> Option<Float>): Result<(), Refusal>
  {
    if m.gpu.gpuType != GB10 || total.None? then Ok(())
    else
      var f := EngineFraction(m, parse);
      if f.None? || ckpt.None? then Ok(())
      else if Need(f.value, total.value, ckpt.value, undefined) <= total.value then Ok(())
      else Err(Refused(SafePercent(total.value, ckpt.value)))
  }

  // ----- what the arithmetic means -----

  /** The engine's share, the checkpoint and the host floor fit in the pool. */
  predicate Fits(f: real, total: nat, ckpt: nat) { Share(f, total) + ckpt + HOST_FLOOR <= total }

  /** The sum the check forms stays an int64. */
  predicate NoOverflow(f: real, total: Size, ckpt: Size) { Share(f, total) + ckpt + HOST_FLOOR < TWO63 }

  /** Exactly when a fraction passes: it fits, or the int64 sum wrapped around. */
  lemma AcceptedExactly(f: real, total: Size, ckpt: Size, undefined: int)
    requires 0.0 < f <= 1.0
    ensures Need(Finite(f), total, ckpt, undefined) <= total
            <==> Fits(f, total, ckpt) || !NoOverflow(f, total, ckpt)
  {
    ShareBounds(f, total);
  }

  lemma ShareBounds(f: real, total: nat)
    requires 0.0 <= f <= 1.0
    ensures 0 <= Share(f, total) <= total
  {
    var t := total as real;
    MulMono(0.0, f, t);
    MulMono(f, 1.0, t);
    assert 0.0 <= f * t <= t;
  }

  lemma SmallerFractionFits(f: real, g: real, total: nat, ckpt: nat)
    requires g <= f && Fits(f, total, ckpt)
    ensures Fits(g, total, ckpt)
  {
    MulMono(g, f, total as real);
  }

  /**
   * The suggestion printed on refusal: k/100 itself is accepted when positive, and one hundredth more
   * is refused unless its share is exactly what is free.
   */
  lemma SuggestionIsTight(total: Size, ckpt: Size)
    ensures var k := SafePercent(total, ckpt);
            && (k > 0 ==> Fits(k as real / 100.0, total, ckpt))
            && (Fits((k + 1) as real / 100.0, total, ckpt) <==>
                Share((k + 1) as real / 100.0, total) == total - ckpt - HOST_FLOOR)
  {
    var free := total - ckpt - HOST_FLOOR;
    var k := SafePercent(total, ckpt);
    PercentShare(k, total);
    PercentShare(k + 1, total);
    if free >= 0 {
      DivBounds(100 * free, total);
    }
  }

  lemma PercentIsFraction(k: nat)
    requires 0 < k <= 100
    ensures 0.0 < k as real / 100.0 <= 1.0
  {
  }

  /** So the suggestion, put back in the manifest, passes the very check that printed it. */
  lemma SuggestionIsAccepted(total: Size, ckpt: Size, undefined: int)
    requires SafePercent(total, ckpt) > 0
    ensures var k := SafePercent(total, ckpt);
            && k <= 100
            && Need(Finite(k as real / 100.0), total, ckpt, undefined) <= total
  {
    var k := SafePercent(total, ckpt);
    SuggestionIsTight(total, ckpt);
    SuggestionIsBelowAll(total, ckpt);
    PercentIsFraction(k);
    AcceptedExactly(k as real / 100.0, total, ckpt, undefined);
  }

  /** The manifest is one the check looks at, and states this fraction. */
  predicate StatesFraction(m: Manifest, f: real, parse: string -> Option<Float>) {
    m.gpu.gpuType == GB10 && EngineFraction(m, parse) == Some(Finite(f))
  }

  lemma VerdictExactly(m: Manifest, f: real, total: Size, ckpt: Size, undefined: int, parse: string -> Option<Float>)
    requires StatesFraction(m, f, parse) && 0.0 < f <= 1.0
    ensures CheckMemoryBudget(m, Some(total), Some(ckpt), undefined, parse).Ok?
            <==> Fits(f, total, ckpt) || !NoOverflow(f, total, ckpt)
  {
    AcceptedExactly(f, total, ckpt, undefined);
  }

  /** The number a refusal carries is the limit: it fits, and one hundredth more only exactly. */
  lemma RefusalNames(m: Manifest, total: Size, ckpt: Size, undefined: int, parse: string -> Option<Float>)
    returns (k: nat, suggested: real, next: real)
    requires CheckMemoryBudget(m, Some(total), Some(ckpt), undefined, parse).Err?
    ensures CheckMemoryBudget(m, Some(total), Some(ckpt), undefined, parse) == Err(Refused(k))
    ensures 100.0 * suggested == k as real && 100.0 * next == (k + 1) as real && k < 100
    ensures k > 0 ==> Fits(suggested, total, ckpt)
    ensures Fits(next, total, ckpt) <==> Share(next, total) + ckpt + HOST_FLOOR == total
  {
    RefusedPercent(m, total, ckpt, undefined, parse);
    k, suggested, next := TightHundredths(total, ckpt);
  }

  lemma RefusedPercent(m: Manifest, total: Size, ckpt: Size, undefined: int, parse: string -> Option<Float>)
    requires CheckMemoryBudget(m, Some(total), Some(ckpt), undefined, parse).Err?
    ensures CheckMemoryBudget(m, Some(total), Some(ckpt), undefined, parse) == Err(Refused(SafePercent(total, ckpt)))
  {
  }

  lemma TightHundredths(total: Size, ckpt: Size) returns (k: nat, suggested: real, next: real)
    ensures k == SafePercent(total, ckpt) && k < 100
    ensures 100.0 * suggested == k as real && 100.0 * next == (k + 1) as real
    ensures k > 0 ==> Fits(suggested, total, ckpt)
    ensures Fits(next, total, ckpt) <==> Share(next, total) + ckpt + HOST_FLOOR == total
  {
    SuggestionIsBelowAll(total, ckpt);
    SuggestionIsTight(total, ckpt);
    k := SafePercent(total, ckpt);
    suggested := Hundredths(k);
    next := Hundredths(k + 1);
    assert suggested == k as real / 100.0 && next == (k + 1) as real / 100.0;
  }

  lemma Hundredths(k: nat) returns (f: real)
    ensures f == k as real / 100.0 && 100.0 * f == k as real
  {
    f := k as real / 100.0;
  }

  lemma SuggestionIsBelowAll(total: Size, ckpt: Size)
    ensures SafePercent(total, ckpt) < 100
  {
    var free := total - ckpt - HOST_FLOOR;
    if free >= 0 {
      QuotientBelow(100 * free, total, 100);
    }
  }

  lemma QuotientBelow(n: nat, d: nat, k: nat)
    requires d > 0 && n < k * d
    ensures n / d < k
  {
    DivBounds(n, d);
  }

  lemma FittingPasses(m: Manifest, f: real, total: Size, ckpt: Size, undefined: int, parse: string -> Option<Float>)
    requires 0.0 < f <= 1.0 && Fits(f, total, ckpt)
    ensures StatesFraction(m, f, parse) ==> CheckMemoryBudget(m, Some(total), Some(ckpt), undefined, parse).Ok?
  {
    if StatesFraction(m, f, parse) {
      VerdictExactly(m, f, total, ckpt, undefined, parse);
    }
  }

  lemma TightIsJudged(m: Manifest, f: real, total: Size, ckpt: Size, undefined: int, parse: string -> Option<Float>)
    requires 0.0 < f <= 1.0 && (Fits(f, total, ckpt) <==> Share(f, total) + ckpt + HOST_FLOOR == total)
    ensures StatesFraction(m, f, parse) && NoOverflow(f, total, ckpt) ==>
              (CheckMemoryBudget(m, Some(total), Some(ckpt), undefined, parse).Ok?
               <==> Share(f, total) + ckpt + HOST_FLOOR == total)
  {
    if StatesFraction(m, f, parse) {
      VerdictExactly(m, f, total, ckpt, undefined, parse);
    }
  }

  /**
   * What a refusal says, about the check that printed it: a manifest that states the suggested hundredths
   * passes on the same pool and checkpoint, and one that states a hundredth more is refused unless its share
   * meets the bound exactly, int64 wrap-around aside.
   */
  lemma RefusalSuggestsTheLimit(m: Manifest, total: Size, ckpt: Size, undefined: int, parse: string -> Option<Float>,
                                other: Manifest)
    returns (k: nat, suggested: real, next: real)
    requires CheckMemoryBudget(m, Some(total), Some(ckpt), undefined, parse).Err?
    ensures CheckMemoryBudget(m, Some(total), Some(ckpt), undefined, parse) == Err(Refused(k))
    ensures 100.0 * suggested == k as real && 100.0 * next == (k + 1) as real
    ensures k > 0 && StatesFraction(other, suggested, parse) ==>
              CheckMemoryBudget(other, Some(total), Some(ckpt), undefined, parse).Ok?
    ensures StatesFraction(other, next, parse) && NoOverflow(next, total, ckpt) ==>
              (CheckMemoryBudget(other, Some(total), Some(ckpt), undefined, parse).Ok?
               <==> Share(next, total) + ckpt + HOST_FLOOR == total)
  {
    k, suggested, next := RefusalNames(m, total, ckpt, undefined, parse);
    TightIsJudged(other, next, total, ckpt, undefined, parse);
    if k > 0 {
      FittingPasses(other, suggested, total, ckpt, undefined, parse);
    }
  }

  /** The check never blocks what it cannot judge. */
  lemma SkippedChecksPass(m: Manifest, total: Option<Size>, ckpt: Option<Size>, undefined: int,
                          parse: string -> Option<Float>)
    ensures m.gpu.gpuType != GB10 || total.None? || ckpt.None? || NoUsableFraction(m, parse) ==>
              CheckMemoryBudget(m, total, ckpt, undefined, parse).Ok?
  {
  }

  /** The manifest states no fraction, one that is no number, or one that is not positive. */
  predicate NoUsableFraction(m: Manifest, parse: string -> Option<Float>) {
    var stated := FlagValue(m.args, MemFractionFlagFor(m));
    stated.None? || parse(stated.value).None? || AtMost(parse(stated.value).value, 0.0)
  }

  // ----- the fraction checked and the fraction used -----

  /** On every valid start: the value the engine obeys is the one checked iff the speculator does not change it. */
  lemma CheckedValueIsUsedExactly(m: Manifest, choice: string, model: string, port: int, draftPath: string,
                                  parse: string -> Option<Float>)
    requires Valid(m, parse) && m.gpu.gpuType == GB10 && m.runtime in MEM_FRACTION_FLAGS
    requires ResolveSpeculator(m, choice).Ok?
    ensures var spec := ResolveSpeculator(m, choice).value;
            var flag := MEM_FRACTION_FLAGS[m.runtime];
            var cmd := EngineCommand(m, model, port, spec, draftPath).value;
            var stated := FlagValue(spec.speculator.args, flag);
            FlagValue(cmd, flag) == FlagValue(m.args, flag)
            <==> (stated == None || stated == FlagValue(m.args, flag))
  {
    var spec := ResolveSpeculator(m, choice).value;
    var flag := MEM_FRACTION_FLAGS[m.runtime];
    var args := m.args + spec.speculator.args;
    ResolvedFractionOk(m, choice, parse);
    CommandParts(m, model, port, spec, draftPath);
    StatedFlagSurvives(Launcher(m, model, port), args, draftPath, flag);
    FlagConcat(m.args, spec.speculator.args, flag);
    if EndsInBareFlag(m.args, flag) {
      BareEndIsFound(m.args, flag);
    }
  }

  /**
   * A valid gb10 start whose speculator leaves the fraction alone and that passes the check launches an
   * engine whose share fits, unless the fraction is NaN or the byte sum overflows int64.
   */
  lemma PreflightProtectsTheHost(m: Manifest, choice: string, model: string, port: int, draftPath: string,
                                 total: Size, ckpt: Size, undefined: int, parse: string -> Option<Float>)
    requires Valid(m, parse) && m.gpu.gpuType == GB10 && m.runtime in MEM_FRACTION_FLAGS
    requires ResolveSpeculator(m, choice).Ok?
    requires FlagValue(ResolveSpeculator(m, choice).value.speculator.args, MEM_FRACTION_FLAGS[m.runtime]) == None
    ensures var cmd := EngineCommand(m, model, port, ResolveSpeculator(m, choice).value, draftPath).value;
            var f := EffectiveFraction(m, cmd, parse);
            && f.Some?
            && (f.value == NaN || (f.value.Finite? &&
                  (CheckMemoryBudget(m, Some(total), Some(ckpt), undefined, parse).Ok?
                   <==> Fits(f.value.v, total, ckpt) || !NoOverflow(f.value.v, total, ckpt))))
  {
    CheckedValueIsUsedExactly(m, choice, model, port, draftPath, parse);
    CeilingHoldsOnEveryStart(m, choice, model, port, draftPath, parse);
    var cmd := EngineCommand(m, model, port, ResolveSpeculator(m, choice).value, draftPath).value;
    var f := EffectiveFraction(m, cmd, parse).value;
    if f.Finite? {
      assert EngineFraction(m, parse) == Some(f);
      AcceptedExactly(f.v, total, ckpt, undefined);
    }
  }

  /** No pool with room for the checked share gives the used fraction a larger one. */
  ghost predicate NeverClaimsMore(used: real, checked: real) {
    forall total: Size | Share(checked, total) + HOST_FLOOR <= total :: Share(used, total) <= Share(checked, total)
  }

  /**
   * When a speculator changes the fraction: the check made on the stated one still protects every pool and
   * checkpoint an int64 can hold exactly when the engine's share never exceeds the checked one.
   */
  lemma OverrideIsSafeExactly(m: Manifest, choice: string, model: string, port: int, draftPath: string,
                              undefined: int, parse: string -> Option<Float>)
    requires Valid(m, parse) && m.gpu.gpuType == GB10 && m.runtime in MEM_FRACTION_FLAGS
    requires ResolveSpeculator(m, choice).Ok?
    ensures var cmd := EngineCommand(m, model, port, ResolveSpeculator(m, choice).value, draftPath).value;
            var checked, used := EngineFraction(m, parse), EffectiveFraction(m, cmd, parse);
            && checked.Some? && used.Some?
            && (checked.value != NaN && used.value != NaN ==>
                  && checked.value.Finite? && used.value.Finite?
                  && (Protected(m, checked.value.v, used.value.v, undefined, parse) <==>
                      NeverClaimsMore(used.value.v, checked.value.v)))
  {
    StartFractions(m, choice, model, port, draftPath, parse);
    var cmd := EngineCommand(m, model, port, ResolveSpeculator(m, choice).value, draftPath).value;
    var checked, used := EngineFraction(m, parse).value, EffectiveFraction(m, cmd, parse).value;
    if checked != NaN && used != NaN {
      ProtectedExactly(m, checked.v, used.v, undefined, parse);
    }
  }

  /** What the check promises: a start it lets through leaves the host its memory, int64 wrap-around aside. */
  ghost predicate Protected(m: Manifest, checked: real, used: real, undefined: int, parse: string -> Option<Float>) {
    forall total: Size, ckpt: Size
      | CheckMemoryBudget(m, Some(total), Some(ckpt), undefined, parse).Ok? && NoOverflow(checked, total, ckpt) ::
        Fits(used, total, ckpt)
  }

  /** Both fractions of a valid start: present, and in (0, 0.80] unless they are NaN. */
  lemma StartFractions(m: Manifest, choice: string, model: string, port: int, draftPath: string,
                       parse: string -> Option<Float>)
    requires Valid(m, parse) && m.gpu.gpuType == GB10 && m.runtime in MEM_FRACTION_FLAGS
    requires ResolveSpeculator(m, choice).Ok?
    ensures var cmd := EngineCommand(m, model, port, ResolveSpeculator(m, choice).value, draftPath);
            && cmd.Ok?
            && var checked, used := EngineFraction(m, parse), EffectiveFraction(m, cmd.value, parse);
               && checked.Some? && (checked.value == NaN || UnderCeiling(checked.value))
               && used.Some? && (used.value == NaN || UnderCeiling(used.value))
  {
    CeilingHoldsOnEveryStart(m, choice, model, port, draftPath, parse);
    assert FractionOk(m.args, MEM_FRACTION_FLAGS[m.runtime], parse);
  }

  lemma ProtectedExactly(m: Manifest, checked: real, used: real, undefined: int, parse: string -> Option<Float>)
    requires m.gpu.gpuType == GB10
    requires EngineFraction(m, parse) == Some(Finite(checked)) && 0.0 < checked <= 0.80
    ensures Protected(m, checked, used, undefined, parse) <==> NeverClaimsMore(used, checked)
  {
    forall total: Size, ckpt: Size
      ensures CheckMemoryBudget(m, Some(total), Some(ckpt), undefined, parse).Ok?
              <==> Fits(checked, total, ckpt) || !NoOverflow(checked, total, ckpt)
    {
      AcceptedExactly(checked, total, ckpt, undefined);
    }
    if Protected(m, checked, used, undefined, parse) {
      forall total: Size | Share(checked, total) + HOST_FLOOR <= total
        ensures Share(used, total) <= Share(checked, total)
      {
        ShareBounds(checked, total);
        var ckpt: Size := total - Share(checked, total) - HOST_FLOOR;
        assert Fits(checked, total, ckpt) && NoOverflow(checked, total, ckpt);
        assert Fits(used, total, ckpt);
      }
    }
    if NeverClaimsMore(used, checked) {
      forall total: Size, ckpt: Size | Fits(checked, total, ckpt) ensures Fits(used, total, ckpt) {
        assert Share(checked, total) + HOST_FLOOR <= total;
      }
    }
  }

  const LARGEST: Size := TWO63 - 1

  /**
   * Whose share never exceeds whose: a fraction that is not larger; and only such a one, as soon as the
   * difference is worth a byte on the largest pool.
   */
  lemma NeverClaimsMoreIfLower(used: real, checked: real)
    requires used <= checked
    ensures NeverClaimsMore(used, checked)
  {
    forall total: Size ensures Share(used, total) <= Share(checked, total) {
      MulMono(used, checked, total as real);
    }
  }

  lemma NeverClaimsMoreExactly(used: real, checked: real)
    requires 0.0 < checked <= 0.80 && 0.0 < used <= 0.80
    requires used > checked ==> LARGEST as real * (used - checked) >= 1.0
    ensures NeverClaimsMore(used, checked) <==> used <= checked
  {
    if used <= checked {
      NeverClaimsMoreIfLower(used, checked);
    } else {
      ShareGrows(checked, used, LARGEST);
      MulMono(checked, 0.80, LARGEST as real);
      assert 5 * Share(checked, LARGEST) <= 4 * LARGEST;
      assert Share(checked, LARGEST) + HOST_FLOOR <= LARGEST;
    }
  }

  /** Below that a raise can go unnoticed on every pool: a quarter and a sliver more claim the same. */
  lemma SliverIsInvisible(sliver: real)
    requires 0.0 < sliver && LARGEST as real * sliver < 0.25
    ensures 0.25 + sliver > 0.25 && NeverClaimsMore(0.25 + sliver, 0.25)
  {
    forall total: Size ensures Share(0.25 + sliver, total) == Share(0.25, total) {
      MulMono(total as real, LARGEST as real, sliver);
      QuarterShare(total, sliver);
    }
  }

  lemma QuarterShare(total: nat, sliver: real)
    requires 0.0 < sliver && total as real * sliver < 0.25
    ensures Share(0.25 + sliver, total) == Share(0.25, total)
  {
    var t, q, r := total as real, total / 4, total % 4;
    Distribute(0.25, sliver, t);
    assert total == 4 * q + r && r <= 3;
    assert t == 4.0 * q as real + r as real;
    MulMono(0.0, sliver, t);
    var extra := sliver * t;
    assert extra == total as real * sliver;
    assert 0.0 <= extra < 0.25;
    FloorOf(q, 0.25 * r as real);
    FloorOf(q, 0.25 * r as real + extra);
  }

  lemma Distribute(a: real, b: real, t: real)
    ensures (a + b) * t == a * t + b * t
  {
  }

  lemma FloorOf(q: int, y: real)
    requires 0.0 <= y < 1.0
    ensures (q as real + y).Floor == q
  {
  }

  lemma ShareGrows(low: real, high: real, total: nat)
    requires low < high && total as real * (high - low) >= 1.0
    ensures Share(low, total) < Share(high, total)
  {
    var t := total as real;
    assert high * t == low * t + t * (high - low);
  }

  /** The wrap-around is reachable: a valid manifest that states 0.5 passes on the largest pool, full. */
  lemma WrapEscapesTheCheck(fraction: string, undefined: int, parse: string -> Option<Float>)
    requires fraction != "" && !Dash(fraction) && parse(fraction) == Some(Finite(0.5))
    ensures var m := GB10Manifest(fraction);
            && Valid(m, parse)
            && CheckMemoryBudget(m, Some(LARGEST), Some(LARGEST), undefined, parse).Ok?
            && !Fits(0.5, LARGEST, LARGEST)
  {
    GB10ManifestValid(fraction, parse);
    GB10Args(fraction);
    HalfOfTheLargest();
    AcceptedExactly(0.5, LARGEST, LARGEST, undefined);
  }

  lemma HalfOfTheLargest()
    ensures !Fits(0.5, LARGEST, LARGEST) && !NoOverflow(0.5, LARGEST, LARGEST)
  {
    ShareBounds(0.5, LARGEST);
  }

  // ----- the start the check does not see -----

  /** A valid manifest whose one speculator states another fraction. */
  function Overriding(override: string): Speculator { Speculator("", "", "", "", [GPU_UTILIZATION_FLAG, override]) }

  function OverridingManifest(base: string, override: string): Manifest {
    GB10Offering(base, map["s" := Overriding(override)], "s")
  }

  lemma TwoTokens(f: string, v: string, flag: string)
    requires Dash(f) && Dash(flag) && !Dash(v) && '=' !in f
    ensures FlagValue([f, v], flag) == if flag == f then Some(v) else None
  {
    CutParts(f, '=');
    ValueTokenIsNoFlag(v, flag);
    assert [f, v][1..] == [v] && [v][1..] == [];
    assert FlagValue([v], flag) == None;
  }

  lemma OverridingArgs(base: string, override: string)
    requires !Dash(base) && !Dash(override)
    ensures var args := GB10Manifest(base).args + [GPU_UTILIZATION_FLAG, override];
            FlagValue(args, GPU_UTILIZATION_FLAG) == Some(override) && FlagValue(args, ALGORITHM_FLAG) == None
  {
    var args, tail := GB10Manifest(base).args, [GPU_UTILIZATION_FLAG, override];
    FlagNames();
    TwoTokens(GPU_UTILIZATION_FLAG, override, GPU_UTILIZATION_FLAG);
    TwoTokens(GPU_UTILIZATION_FLAG, override, ALGORITHM_FLAG);
    GB10Args(base);
    assert args[|args| - 1] == MAX_MODEL_LEN_FLAG;
    FlagConcat(args, tail, GPU_UTILIZATION_FLAG);
    FlagConcat(args, tail, ALGORITHM_FLAG);
  }

  lemma OverridingManifestValid(base: string, override: string, parse: string -> Option<Float>)
    requires base != "" && !Dash(base) && override != "" && !Dash(override)
    requires parse(base).Some? && UnderCeiling(parse(base).value)
    requires parse(override).Some? && UnderCeiling(parse(override).value)
    ensures var m := OverridingManifest(base, override);
            Valid(m, parse) && ResolveSpeculator(m, "") == Ok(Speculation("s", m.speculators["s"]))
  {
    var m := OverridingManifest(base, override);
    GB10HeaderOk(base, map["s" := Overriding(override)], "s");
    GB10Args(base);
    OverridingArgs(base, override);
    assert m.speculators.Keys == {"s"} && m.speculators["s"] == Overriding(override);
    OneSpeculator(m, parse);
  }

  /** Every rule about the combinations, for a manifest that offers the one speculator "s". */
  lemma OneSpeculator(m: Manifest, parse: string -> Option<Float>)
    requires m.speculators.Keys == {"s"} && m.defaultSpeculator == "s"
    requires m.gpu == GPU(GB10, 1, 1) && m.runtime == VLLM
    requires m.speculators["s"].args != [] && m.speculators["s"] == Speculator("", "", "", "", m.speculators["s"].args)
    requires FractionOk(m.args, GPU_UTILIZATION_FLAG, parse) && DSparkOk(m.args)
    requires FlagValue(m.args, MAX_MODEL_LEN_FLAG).Some?
    requires FractionOk(m.args + m.speculators["s"].args, GPU_UTILIZATION_FLAG, parse)
    requires DSparkOk(m.args + m.speculators["s"].args)
    ensures GB10Ok(m, parse) && SpeculatorsOk(m) && SpeculationOk(m)
    ensures ResolveSpeculator(m, "") == Ok(Speculation("s", m.speculators["s"]))
  {
    ShortName();
    assert "s" in m.speculators.Keys;
    assert forall n | n in m.speculators :: n == "s";
  }

  lemma ShortName()
    ensures NameOk("s") && "s" != NONE
  {
    assert |NONE| == 4;
  }

  /** Stating 0.10 and choosing 0.80: 20 GiB on a 100 GiB host passes the check and does not fit. */
  lemma OverrideEscapesTheCheck(base: string, override: string, model: string, port: int, undefined: int,
                                parse: string -> Option<Float>)
    requires base != "" && !Dash(base) && override != "" && !Dash(override)
    requires parse(base) == Some(Finite(0.10)) && parse(override) == Some(Finite(0.80))
    ensures var m := OverridingManifest(base, override);
            var total: Size, ckpt: Size := 100 * 0x4000_0000, 20 * 0x4000_0000;
            && Valid(m, parse) && ResolveSpeculator(m, "").Ok?
            && CheckMemoryBudget(m, Some(total), Some(ckpt), undefined, parse).Ok?
            && var cmd := EngineCommand(m, model, port, ResolveSpeculator(m, "").value, "").value;
               EffectiveFraction(m, cmd, parse) == Some(Finite(0.80)) && !Fits(0.80, total, ckpt)
  {
    OverridingManifestValid(base, override, parse);
    OverridingStart(base, override, model, port, parse);
    StatedFractionPasses(base, override, undefined, parse);
  }

  lemma OverridingStart(base: string, override: string, model: string, port: int, parse: string -> Option<Float>)
    requires !Dash(base) && !Dash(override)
    ensures var m := OverridingManifest(base, override);
            var cmd := EngineCommand(m, model, port, Speculation("s", m.speculators["s"]), "");
            cmd.Ok? && EffectiveFraction(m, cmd.value, parse) == parse(override)
  {
    var m := OverridingManifest(base, override);
    var args := m.args + Overriding(override).args;
    assert m.args == GB10Manifest(base).args;
    OverridingArgs(base, override);
    CommandParts(m, model, port, Speculation("s", m.speculators["s"]), "");
    StatedFlagSurvives(Launcher(m, model, port), args, "", GPU_UTILIZATION_FLAG);
  }

  lemma StatedFractionPasses(base: string, override: string, undefined: int, parse: string -> Option<Float>)
    requires !Dash(base) && parse(base) == Some(Finite(0.10))
    ensures var m := OverridingManifest(base, override);
            var total: Size, ckpt: Size := 100 * 0x4000_0000, 20 * 0x4000_0000;
            CheckMemoryBudget(m, Some(total), Some(ckpt), undefined, parse).Ok? && !Fits(0.80, total, ckpt)
  {
    var total: Size, ckpt: Size := 100 * 0x4000_0000, 20 * 0x4000_0000;
    assert Fits(0.10, total, ckpt);
    AcceptedExactly(0.10, total, ckpt, undefined);
    GB10Args(base);
    assert OverridingManifest(base, override).args == GB10Manifest(base).args;
    assert EngineFraction(OverridingManifest(base, override), parse) == Some(Finite(0.10));
  }
}
