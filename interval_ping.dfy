/** 20-internet-avaibility/interval-ping.py: the pinger sleeps until the next second
    :30 of a minute before each request. Times are integer microseconds on a clock
    whose minutes start at multiples of 60,000,000; the sleep and the request
    themselves are not modelled. */
module IntervalPing {
  const UsPerSecond: int := 1_000_000
  const UsPerMinute: int := 60 * UsPerSecond
  /** Second :30 of a minute, as an offset into it. */
  const HalfMinute: int := 30 * UsPerSecond

  /** now.second */
  function SecondOf(now: int): (s: int)
    ensures 0 <= s < 60
  {
    now / UsPerSecond % 60
  }

  /** now.microsecond */
  function MicrosecondOf(now: int): (us: int)
    ensures 0 <= us < UsPerSecond
  {
    now % UsPerSecond
  }

  /** The offset of `now` in its minute is its second and microsecond. */
  lemma OffsetInMinute(now: int)
    ensures now % UsPerMinute == SecondOf(now) * UsPerSecond + MicrosecondOf(now)
  {
    var q := now / UsPerSecond;
    assert now == q * UsPerSecond + MicrosecondOf(now);
    assert q == q / 60 * 60 + SecondOf(now);
    assert now == q / 60 * UsPerMinute + (SecondOf(now) * UsPerSecond + MicrosecondOf(now));
  }

  /** seconds_to_wait, in microseconds: up to :30 of this minute while second < 30,
      else up to :30 of the next minute. It is positive and at most a minute, and
      the wake-up lands exactly on second :30 with no microseconds: of this minute
      before :30, of the next one from :30 on. */
  function Delay(now: int): (d: int)
    ensures 0 < d <= UsPerMinute
    ensures (now + d) % UsPerMinute == HalfMinute
    ensures SecondOf(now) < 30 ==> (now + d) / UsPerMinute == now / UsPerMinute
    ensures SecondOf(now) >= 30 ==> (now + d) / UsPerMinute == now / UsPerMinute + 1
  {
    OffsetInMinute(now);
    var minuteStart := now / UsPerMinute * UsPerMinute;
    var second, micro := SecondOf(now), MicrosecondOf(now);
    var d := if second < 30 then 30 * UsPerSecond - second * UsPerSecond - micro
             else 60 * UsPerSecond - second * UsPerSecond - micro + 30 * UsPerSecond;
    assert now == minuteStart + second * UsPerSecond + micro;
    assert now + d == if second < 30 then minuteStart + HalfMinute else minuteStart + UsPerMinute + HalfMinute;
    d
  }

  /** A full minute is waited exactly when now is already at :30.000000. */
  lemma FullMinuteAtHalf(now: int)
    ensures Delay(now) == UsPerMinute <==> now % UsPerMinute == HalfMinute
  {
    OffsetInMinute(now);
    var m := now / UsPerMinute;
    assert (now + UsPerMinute) % UsPerMinute == now % UsPerMinute by {
      assert now + UsPerMinute == (m + 1) * UsPerMinute + now % UsPerMinute;
    }
    if now % UsPerMinute == HalfMinute {
      assert SecondOf(now) == 30 && MicrosecondOf(now) == 0;
    }
  }

  /** The delay is the shortest positive wait that lands on :30.000000. */
  lemma DelayIsLeast(now: int, e: int)
    requires 0 < e && (now + e) % UsPerMinute == HalfMinute
    ensures Delay(now) <= e
  {
    var d := Delay(now);
    var a, b := (now + d) / UsPerMinute, (now + e) / UsPerMinute;
    assert now + d == a * UsPerMinute + HalfMinute;
    assert now + e == b * UsPerMinute + HalfMinute;
    assert e - d == (b - a) * UsPerMinute;
    assert b - a >= 0;
  }
}
