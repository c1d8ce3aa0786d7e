/**
 * The running statistics of a conversation (`_get_stats`, `_apply_usage`): a
 * dictionary `{turns, total: {input, output, total tokens}, last}` that the
 * routes update in place and share with the cached session record.
 */
module SessionStats {
  import opened Common
  import opened Normalizer

  datatype Totals = Totals(input: int, output: int, total: int)

  /** The value of a stats dictionary at one moment. */
  datatype StatsView = StatsView(turns: int, total: Totals, last: Option<Usage>)

  /** The zeroed statistics `_get_stats` supplies. */
  const Zero: StatsView := StatsView(0, Totals(0, 0, 0), None)

  /** `usage` is non-empty (`not usage` is false). */
  predicate Counts(usage: Option<Usage>)
  {
    usage.Some? && HasAny(usage.value)
  }

  /** The amount a possibly absent key adds. */
  function Amount(x: Option<int>): int
  {
    if x.Some? then x.value else 0
  }

  /**
   * `_apply_usage` on the value of the statistics: an empty or absent usage
   * only clears `last`; otherwise each present key is added to its total,
   * `last` becomes the usage and `turns` grows by one.
   */
  function Applied(v: StatsView, usage: Option<Usage>): (r: StatsView)
    ensures !Counts(usage) ==> r == v.(last := None)
    ensures Counts(usage) ==>
      && r.turns == v.turns + 1
      && r.last == usage
      && r.total.input == v.total.input + Amount(usage.value.input)
      && r.total.output == v.total.output + Amount(usage.value.output)
      && r.total.total == v.total.total + Amount(usage.value.total)
      && (usage.value.input.None? ==> r.total.input == v.total.input)
      && (usage.value.output.None? ==> r.total.output == v.total.output)
      && (usage.value.total.None? ==> r.total.total == v.total.total)
  {
    if !Counts(usage) then v.(last := None)
    else
      var u := usage.value;
      var t := v.total;
      StatsView(v.turns + 1,
                Totals(t.input + Amount(u.input), t.output + Amount(u.output), t.total + Amount(u.total)),
                usage)
  }

  /** The statistics after applying `us` in order. */
  function ApplyAll(v: StatsView, us: seq<Option<Usage>>): StatsView
  {
    if us == [] then v else Applied(ApplyAll(v, us[..|us| - 1]), us[|us| - 1])
  }

  /** The number of non-empty usages in `us`. */
  function CountingTurns(us: seq<Option<Usage>>): nat
  {
    if us == [] then 0 else CountingTurns(us[..|us| - 1]) + (if Counts(us[|us| - 1]) then 1 else 0)
  }

  /** The sum of the `total_tokens` the non-empty usages of `us` report. */
  function TotalReported(us: seq<Option<Usage>>): int
  {
    if us == [] then 0
    else TotalReported(us[..|us| - 1]) + (if Counts(us[|us| - 1]) then Amount(us[|us| - 1].value.total) else 0)
  }

  /**
   * Applied to statistics in order, the usages add their reported totals, and
   * `turns` counts only the non-empty ones.
   */
  lemma {:induction false} ApplyAllAccumulates(v: StatsView, us: seq<Option<Usage>>)
    ensures ApplyAll(v, us).turns == v.turns + CountingTurns(us)
    ensures ApplyAll(v, us).total.total == v.total.total + TotalReported(us)
  {
    if us != [] {
      ApplyAllAccumulates(v, us[..|us| - 1]);
    }
  }

  /** From zeroed statistics: `turns` is the number of non-empty usages applied. */
  lemma FromZero(us: seq<Option<Usage>>)
    ensures ApplyAll(Zero, us).turns == CountingTurns(us)
    ensures ApplyAll(Zero, us).total.total == TotalReported(us)
  {
    ApplyAllAccumulates(Zero, us);
  }

  /** The stats dictionary: updated in place, possibly shared with a cached session. */
  class Stats {
    var turns: int
    var total: Totals
    var last: Option<Usage>

    function View(): StatsView
      reads this
    {
      StatsView(turns, total, last)
    }

    /** A fresh zeroed dictionary. */
    constructor ()
      ensures View() == Zero
    {
      turns := 0;
      total := Totals(0, 0, 0);
      last := None;
    }

    /** `_apply_usage(stats, usage)`, which mutates `stats`. */
    method ApplyUsage(usage: Option<Usage>)
      modifies this
      ensures View() == Applied(old(View()), usage)
    {
      if !Counts(usage) {
        last := None;
        return;
      }
      var u := usage.value;
      total := Totals(total.input + Amount(u.input), total.output + Amount(u.output),
                      total.total + Amount(u.total));
      last := usage;
      turns := turns + 1;
    }
  }
}
