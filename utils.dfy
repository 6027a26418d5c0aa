/**
 * The numeric helpers of the report: the free percentage, the byte unit and
 * the uptime breakdown.  The byte count and the seconds are whole numbers;
 * the two-decimal and float renderings are not modelled.
 */
module Utils {
  import opened Numbers

  /** `conv_p`: the integer percentage free * 100 / total, 0 when total is 0. */
  function ConvP(total: U64, free: U64): (percent: nat)
    ensures total == 0 ==> percent == 0
    ensures total != 0 ==> percent * total <= free * 100 < (percent + 1) * total
    ensures free <= total ==> percent <= 100
  {
    if total != 0 then free * 100 / total else 0
  }

  datatype ByteUnit = B | KB | MB | GB | TB

  /** The number of bytes in one unit: a power of 1024. */
  function Scale(u: ByteUnit): nat {
    match u
    case B => 1
    case KB => 1024
    case MB => 1024 * 1024
    case GB => 1024 * 1024 * 1024
    case TB => 1024 * 1024 * 1024 * 1024
  }

  /** A byte count as a whole number of units (the value before its
      two-decimal rendering). */
  datatype ByteSize = ByteSize(whole: nat, unit: ByteUnit)

  /** `conv_b`: the unit band of a byte count. */
  function ConvB(bytes: U64): (r: ByteSize)
    ensures r.unit == B || Scale(r.unit) <= bytes
    ensures r.unit == TB || bytes < 1024 * Scale(r.unit)
    ensures r.whole * Scale(r.unit) <= bytes < (r.whole + 1) * Scale(r.unit)
    ensures r.unit != B ==> 1 <= r.whole
    ensures r.unit != TB ==> r.whole < 1024
    // exactly one unit fits: any other unit is either above the count or
    // leaves 1024 or more of itself
    ensures forall u: ByteUnit :: (u == B || Scale(u) <= bytes) && (u == TB || bytes < 1024 * Scale(u)) ==> u == r.unit
  {
    var n := bytes;
    var u :=
      if n < 1024 then B
      else if 1024 <= n && n < 1024 * 1024 then KB
      else if 1024 * 1024 <= n && n < 1024 * 1024 * 1024 then MB
      else if 1024 * 1024 * 1024 <= n && n < 1024 * 1024 * 1024 * 1024 then GB
      else TB;
    ByteSize(n / Scale(u), u)
  }

  /** An uptime broken into the components the report prints. */
  datatype Duration =
    | Seconds(s: nat)
    | Minutes(m: nat, s: nat)
    | Hours(h: nat, m: nat, s: nat)
    | Days(d: nat, h: nat, m: nat, s: nat)

  function TotalSeconds(t: Duration): nat {
    match t
    case Seconds(s) => s
    case Minutes(m, s) => m * 60 + s
    case Hours(h, m, s) => h * 3600 + m * 60 + s
    case Days(d, h, m, s) => d * 86400 + h * 3600 + m * 60 + s
  }

  /** `conv_t` over whole seconds: the band is chosen by the count of seconds
      (below 60, below 60^2, below 60^3, the rest), the components add up to
      the count again, and minutes and seconds stay below 60.  The hours band
      runs to 59 hours; the days band starts at 60^3 s, i.e. 2 days 12 hours. */
  function ConvT(sec: nat): (t: Duration)
    ensures TotalSeconds(t) == sec
    ensures t.Seconds? <==> sec < 60
    ensures t.Minutes? <==> 60 <= sec < 3600
    ensures t.Hours? <==> 3600 <= sec < 216000
    ensures t.Days? <==> 216000 <= sec
    ensures t.Minutes? ==> 1 <= t.m < 60 && t.s < 60
    ensures t.Hours? ==> 1 <= t.h < 60 && t.m < 60 && t.s < 60
    ensures t.Days? ==> 2 <= t.d && t.h < 24 && t.m < 60 && t.s < 60
  {
    if sec < 60 then Seconds(sec)
    else if 60 <= sec && sec < 60 * 60 then
      Minutes(sec / 60, sec % 60)
    else if 60 * 60 <= sec && sec < 60 * 60 * 60 then
      Hours(sec / 3600, (sec % 3600) / 60, (sec % 3600) % 60)
    else
      Days(sec / 86400, (sec % 86400) / 3600, ((sec % 86400) % 3600) / 60, ((sec % 86400) % 3600) % 60)
  }
}
