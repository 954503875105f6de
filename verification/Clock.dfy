/** The clock of a charger against ours, in whole seconds (evsemaster/device.py). */
module Clock {
  const CLOCK_SKEW_THRESHOLD := 86400

  function Abs(x: int): int
  {
    if x < 0 then -x else x
  }

  /** `math.ceil(x / 60) * 60`. */
  function CeilMinute(x: int): (m: int)
    ensures m % 60 == 0 && x <= m < x + 60
  {
    -(-x / 60) * 60
  }

  /** The correction kept after a report that the charger's clock is `skew` seconds ahead. */
  function Measure(timeDelta: int, skew: int): int
  {
    if Abs(skew) <= CLOCK_SKEW_THRESHOLD then 0
    else if Abs(skew - timeDelta) > 60 then CeilMinute(skew)
    else timeDelta
  }

  /** The correction after a run of reports, from none at the start. */
  function MeasureAll(skews: seq<int>): int
  {
    if |skews| == 0 then 0 else Measure(MeasureAll(skews[..|skews| - 1]), skews[|skews| - 1])
  }

  /** A correction is none at all, or whole minutes and at least a day. */
  predicate Settled(timeDelta: int)
  {
    timeDelta == 0 || (timeDelta % 60 == 0 && Abs(timeDelta) >= CLOCK_SKEW_THRESHOLD)
  }

  lemma {:induction false} SkewSettled(skews: seq<int>)
    ensures Settled(MeasureAll(skews))
  {
    if |skews| == 0 {
    } else {
      SkewSettled(skews[..|skews| - 1]);
    }
  }

  /** Skew controller bound: after any run of reports ending in `skew`, starting without a correction,
      the correction is 0 exactly when the skew is at most a day; otherwise it is within 60 s of it, and
      0 to 59 s above it unless the one before was already within 60 s, which is then kept. */
  lemma SkewBound(skews: seq<int>, skew: int)
    ensures var before, after := MeasureAll(skews), MeasureAll(skews + [skew]);
            && Settled(after)
            && (after == 0 <==> Abs(skew) <= CLOCK_SKEW_THRESHOLD)
            && (after != 0 ==> Abs(after - skew) <= 60)
            && (after != 0 && Abs(skew - before) > 60 ==> 0 <= after - skew < 60)
            && (after != 0 && Abs(skew - before) <= 60 ==> after == before)
  {
    SkewSettled(skews + [skew]);
    assert (skews + [skew])[..|skews|] == skews;
  }

  // Epochs

  /** An instant as the charger's epoch: local time read as Shanghai time, shifted by the correction if asked. */
  function Encode(instant: int, offset: int, timeDelta: int, adjust: bool): int
  {
    var epoch := instant - offset;
    if timeDelta != 0 && adjust then epoch + timeDelta else epoch
  }

  /** A charger's epoch as an instant; the correction applies only to epochs over a day ahead of `now`. */
  function Decode(epoch: int, offset: int, timeDelta: int, now: int): int
  {
    var instant := epoch + offset;
    if timeDelta != 0 && epoch - now > 86400 then instant - timeDelta else instant
  }

  /** Encoding with the correction and decoding returns the instant exactly when there is no
      correction or the encoded epoch lies over a day ahead; without the correction, exactly when
      there is none or it does not. */
  lemma EpochRoundTrip(instant: int, offset: int, timeDelta: int, now: int)
    ensures Decode(Encode(instant, offset, timeDelta, true), offset, timeDelta, now) == instant
       <==> timeDelta == 0 || instant - offset + timeDelta - now > 86400
    ensures Decode(Encode(instant, offset, timeDelta, false), offset, timeDelta, now) == instant
       <==> timeDelta == 0 || instant - offset - now <= 86400
  {
  }

  /** A schedule for any future instant reads back right on a charger running more than a day and the offset ahead. */
  lemma FutureRoundTrip(offset: int, timeDelta: int, now: int)
    ensures timeDelta > 86400 + offset ==>
              forall instant :: instant >= now ==>
                Decode(Encode(instant, offset, timeDelta, true), offset, timeDelta, now) == instant
    ensures timeDelta != 0 && timeDelta <= 86400 + offset ==>
              Decode(Encode(now, offset, timeDelta, true), offset, timeDelta, now) != now
  {
  }

  /** When a charger whose clock reads `skew` seconds ahead reaches an epoch, in our time: its clock shows
      `t - offset + skew` at our instant t. */
  function FiresAt(epoch: int, offset: int, skew: int): int
  {
    epoch + offset - skew
  }

  /** A start aimed after a run of reports ending in the charger's skew: with a skew over a day it fires within 60 s
      of the requested instant, and early exactly if the correction from before was kept and lies
      below the skew; with a smaller one it is off by the skew itself. */
  lemma StartFires(skews: seq<int>, skew: int, instant: int, offset: int)
    ensures var before, delta := MeasureAll(skews), MeasureAll(skews + [skew]);
            var fires := FiresAt(Encode(instant, offset, delta, true), offset, skew);
            && (Abs(skew) > CLOCK_SKEW_THRESHOLD ==>
                  && Abs(fires - instant) <= 60
                  && (fires < instant <==> Abs(skew - before) <= 60 && before < skew)
                  && (Abs(skew - before) > 60 ==> fires < instant + 60))
            && (Abs(skew) <= CLOCK_SKEW_THRESHOLD ==> fires == instant - skew)
  {
    SkewBound(skews, skew);
  }

  /** Late rather than early does not hold of a correction that is kept: after a report of a day and a second and
      one of a day and two minutes, a start fires a whole minute early. */
  lemma KeptFiresEarly(instant: int, offset: int)
    ensures MeasureAll([86401]) == MeasureAll([86401, 86520]) == 86460
    ensures FiresAt(Encode(instant, offset, MeasureAll([86401, 86520]), true), offset, 86520) == instant - 60
  {
    assert [86401][..0] == [] && [86401, 86520][..1] == [86401];
    assert MeasureAll([86401]) == CeilMinute(86401) == 86460;
  }
}
