/** `calculateTAT`: hours from "Added On" to the send time, to two decimals,
    never negative. Timestamps are integer milliseconds and the result is an
    integer number of hundredths of an hour (150 stands for 1.50 hours). */
module Tat {

  /** Milliseconds in a hundredth of an hour. */
  const MS_PER_HUNDREDTH: int := 36000

  /** `Math.max(0, parseFloat((diffInMs / 3600000).toFixed(2)))`, on exact
      decimals: the nearest hundredth, half up for a non-negative difference,
      and a negative one is clamped. The script divides in binary floating
      point, so on a tie it can round down instead (54 000 ms is the double
      0.01499..., which `toFixed(2)` prints as "0.01"; this function gives 2). */
  function CalculateTat(addedOn: int, sentOn: int): (r: nat)
    ensures var d := sentOn - addedOn;
            (r == 0 <==> d < MS_PER_HUNDREDTH / 2)
            && (r > 0 ==> r * MS_PER_HUNDREDTH - MS_PER_HUNDREDTH / 2 <= d
                          < r * MS_PER_HUNDREDTH + MS_PER_HUNDREDTH / 2)
  {
    var d := sentOn - addedOn;
    var n := (d + MS_PER_HUNDREDTH / 2) / MS_PER_HUNDREDTH;
    if n < 0 then 0 else n
  }

  /** A send time at or before the added time gives 0. */
  lemma NeverNegativeElapsed(addedOn: int, sentOn: int)
    requires sentOn <= addedOn
    ensures CalculateTat(addedOn, sentOn) == 0
  {
  }

  /** For a non-negative difference the result is the nearest hundredth: no
      other hundredth of an hour is closer to the elapsed time. */
  lemma NearestHundredth(addedOn: int, sentOn: int, m: nat)
    requires sentOn >= addedOn
    ensures var d, r := sentOn - addedOn, CalculateTat(addedOn, sentOn);
            Dist(r * MS_PER_HUNDREDTH, d) <= Dist(m * MS_PER_HUNDREDTH, d)
  {
    var d, r := sentOn - addedOn, CalculateTat(addedOn, sentOn);
    if m < r {
      assert m * MS_PER_HUNDREDTH <= (r - 1) * MS_PER_HUNDREDTH;
    } else if m > r {
      assert m * MS_PER_HUNDREDTH >= (r + 1) * MS_PER_HUNDREDTH;
    }
  }

  function Dist(a: int, b: int): nat {
    if a <= b then b - a else a - b
  }

  /** A later send never gives a smaller turnaround. */
  lemma Monotone(addedOn: int, sentOn: int, laterOn: int)
    requires sentOn <= laterOn
    ensures CalculateTat(addedOn, sentOn) <= CalculateTat(addedOn, laterOn)
  {
  }

  /** Equal timestamps give 0.00 hours; ninety minutes give 1.50. */
  lemma Examples(t: int)
    ensures CalculateTat(t, t) == 0
    ensures CalculateTat(t, t + 90 * 60 * 1000) == 150
    ensures CalculateTat(t, t + 17999) == 0 && CalculateTat(t, t + 18000) == 1
  {
  }
}
