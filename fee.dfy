/** The exit fee of a parking session: the number of billed hours and the
    hour-by-hour tariff that grows by ten percent per hour. */
module Fee {

  const MsPerHour: int := 3600000

  /** Hours billed for a stay of `durationMs` milliseconds: the duration in
      hours rounded up, and never less than one hour. */
  function BilledHours(durationMs: int): (h: nat)
    ensures h >= 1
    ensures durationMs <= MsPerHour ==> h == 1
    ensures durationMs > 0 ==> (h - 1) * MsPerHour < durationMs <= h * MsPerHour
  {
    if durationMs <= 0 then 1 else (durationMs + MsPerHour - 1) / MsPerHour
  }

  /** The fee of the hour after an hour that cost `prev`: prev * 1.1 rounded
      to the nearest integer, halves rounded up. */
  function NextHourFee(prev: int): (r: int)
    ensures 10 * r - 5 <= 11 * prev < 10 * r + 5
  {
    (11 * prev + 5) / 10
  }

  /** The fee charged for hour `k` (1-based) at an hourly rate `rate`. */
  function HourFee(rate: int, k: nat): (r: int)
    requires k >= 1
    ensures rate > 0 ==> r >= rate
  {
    if k == 1 then rate else NextHourFee(HourFee(rate, k - 1))
  }

  datatype HourCharge = HourCharge(hour: nat, fee: int)

  /** The fee of every billed hour, in order. */
  function Breakdown(rate: int, hours: nat): (b: seq<HourCharge>)
    ensures |b| == hours
    ensures forall i :: 0 <= i < hours ==> b[i] == HourCharge(i + 1, HourFee(rate, i + 1))
  {
    seq(hours, i requires 0 <= i => HourCharge(i + 1, HourFee(rate, i + 1)))
  }

  function SumFees(b: seq<HourCharge>): int {
    if b == [] then 0 else SumFees(b[..|b| - 1]) + b[|b| - 1].fee
  }

  /** The total fee of `hours` billed hours. */
  function TotalFee(rate: int, hours: nat): int {
    if hours == 0 then 0 else TotalFee(rate, hours - 1) + HourFee(rate, hours)
  }

  /** The fee loop of the exit handler: hour 1 costs the rate, each later
      hour the rounded 110% of the hour before; the running total and the
      breakdown are accumulated hour by hour. */
  method ComputeFee(rate: int, hours: nat) returns (total: int, breakdown: seq<HourCharge>)
    ensures breakdown == Breakdown(rate, hours)
    ensures total == TotalFee(rate, hours)
  {
    total := 0;
    breakdown := [];
    var current := rate;
    var hour := 1;
    while hour <= hours
      invariant 1 <= hour <= hours + 1
      invariant |breakdown| == hour - 1
      invariant forall i :: 0 <= i < hour - 1 ==> breakdown[i] == HourCharge(i + 1, HourFee(rate, i + 1))
      invariant total == TotalFee(rate, hour - 1)
      invariant hour > 1 ==> current == HourFee(rate, hour - 1)
    {
      if hour == 1 {
        current := rate;
      } else {
        current := NextHourFee(current);
      }
      total := total + current;
      breakdown := breakdown + [HourCharge(hour, current)];
      hour := hour + 1;
    }
  }

  /** The total is the sum of the breakdown's fees. */
  lemma {:induction false} TotalIsSumOfBreakdown(rate: int, hours: nat)
    ensures SumFees(Breakdown(rate, hours)) == TotalFee(rate, hours)
  {
    if hours > 0 {
      var b := Breakdown(rate, hours);
      TotalIsSumOfBreakdown(rate, hours - 1);
      assert b[..hours - 1] == Breakdown(rate, hours - 1);
    }
  }

  /** With a positive rate every extra billed hour costs more. */
  lemma {:induction false} TotalFeeIncreasing(rate: int, h1: nat, h2: nat)
    requires rate > 0 && h1 < h2
    ensures TotalFee(rate, h1) < TotalFee(rate, h2)
  {
    if h1 < h2 - 1 {
      TotalFeeIncreasing(rate, h1, h2 - 1);
    }
  }

  /** The total is at least the rate times the number of billed hours. */
  lemma {:induction false} TotalFeeAtLeastFlat(rate: int, hours: nat)
    requires rate > 0
    ensures TotalFee(rate, hours) >= rate * hours
  {
    if hours > 0 {
      TotalFeeAtLeastFlat(rate, hours - 1);
    }
  }

  /** A stay of two and a half hours at 30000 per hour is billed three
      hours: 30000 + 33000 + 36300. */
  lemma TwoAndAHalfHours()
    ensures BilledHours(9000000) == 3
    ensures Breakdown(30000, 3) == [HourCharge(1, 30000), HourCharge(2, 33000), HourCharge(3, 36300)]
    ensures TotalFee(30000, 3) == 99300
  {
    assert HourFee(30000, 2) == 33000;
    assert HourFee(30000, 3) == 36300;
  }

  /** A five-minute stay is billed one full hour. */
  lemma ShortStayBilledOneHour(rate: int)
    ensures BilledHours(300000) == 1
    ensures TotalFee(rate, BilledHours(300000)) == rate
  {
  }
}
