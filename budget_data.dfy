/**
 * Budget helpers of src/data/budgetData.ts: the share of a budget that has
 * been spent, in whole percent, and the colour band a percentage falls in.
 */
module BudgetData {
  import opened Numbers

  const Destructive := "hsl(var(--destructive))"
  const Amber := "hsl(38, 92%, 50%)"
  const Primary := "hsl(var(--primary))"

  /**
   * `getSpentPercentage`: `spent / allocated` in whole percent, halves rounded
   * up; a zero allocation reports 0 instead of dividing by zero.
   */
  function SpentPercentage(spent: real, allocation: real): (p: int)
    ensures allocation == 0.0 ==> p == 0
    ensures allocation != 0.0 ==> p as real - 0.5 <= spent / allocation * 100.0 < p as real + 0.5
  {
    if allocation == 0.0 then 0 else RoundHalfUp(spent / allocation * 100.0)
  }

  /** Spending exactly the allocation is 100 percent; spending nothing is 0 percent. */
  lemma SpentPercentageEndpoints(allocation: real)
    requires allocation != 0.0
    ensures SpentPercentage(allocation, allocation) == 100
    ensures SpentPercentage(0.0, allocation) == 0
  {
    assert allocation / allocation == 1.0;
  }

  /** For a fixed positive allocation, spending more never lowers the percentage. */
  lemma SpentPercentageMonotone(spent1: real, spent2: real, allocation: real)
    requires allocation > 0.0 && spent1 <= spent2
    ensures SpentPercentage(spent1, allocation) <= SpentPercentage(spent2, allocation)
  {
    assert spent1 / allocation <= spent2 / allocation by {
      assert spent2 / allocation - spent1 / allocation == (spent2 - spent1) / allocation;
    }
    RoundHalfUpMonotone(spent1 / allocation * 100.0, spent2 / allocation * 100.0);
  }

  /** A non-negative spend against a positive allocation is a non-negative percentage. */
  lemma SpentPercentageNonNegative(spent: real, allocation: real)
    requires allocation > 0.0 && spent >= 0.0
    ensures SpentPercentage(spent, allocation) >= 0
  {
    SpentPercentageMonotone(0.0, spent, allocation);
    SpentPercentageEndpoints(allocation);
  }

  /**
   * `getStatusColor`: destructive from 100 percent on, amber from 80 up to
   * 100, primary below 80. Every percentage falls in exactly one band.
   */
  function StatusColor(percentage: real): (color: string)
    ensures color == Destructive <==> percentage >= 100.0
    ensures color == Amber <==> 80.0 <= percentage < 100.0
    ensures color == Primary <==> percentage < 80.0
  {
    if percentage >= 100.0 then Destructive
    else if percentage >= 80.0 then Amber
    else Primary
  }

  /**
   * A budget card turns destructive exactly when at least 99.5 percent of a
   * positive allocation is spent: the percentage is rounded before the band
   * is chosen.
   */
  lemma OverBudgetBand(spent: real, allocation: real)
    requires allocation > 0.0
    ensures StatusColor(SpentPercentage(spent, allocation) as real) == Destructive
        <==> spent / allocation * 100.0 >= 99.5
  {
    var p := SpentPercentage(spent, allocation);
    if spent / allocation * 100.0 >= 99.5 {
      assert p as real > 99.0;
    } else {
      assert p as real < 100.0;
    }
  }
}
