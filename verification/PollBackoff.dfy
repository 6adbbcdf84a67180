/** When the feed poller asks again: the failure backoff in signed 64-bit arithmetic that wraps, and the
    sweeps that count failures and skip feeds that are not due. Durations and instants are nanoseconds. */
module PollBackoff {
  import opened Components
  import opened Powers

  const SECOND := 1_000_000_000
  const MAX_BACKOFF := 86_400 * SECOND
  const MAX_SHIFT := 20
  const WORD := 0x1_0000_0000_0000_0000

  type Duration = d: int | -0x8000_0000_0000_0000 <= d < 0x8000_0000_0000_0000

  /** What a signed 64-bit word keeps of an integer. */
  function Wrapped(x: int): (d: Duration) {
    var m := x % WORD;
    if m >= WORD / 2 then m - WORD else m
  }

  function Base(defaultInterval: Duration, pollInterval: int): Duration {
    if pollInterval > 0 then Wrapped(pollInterval * SECOND) else defaultInterval
  }

  function Interval(base: Duration, failCount: int): Duration {
    if failCount <= 0 then base
    else
      var shift := if failCount > MAX_SHIFT then MAX_SHIFT else failCount;
      var backoff := Wrapped(base * Pow2(shift));
      if backoff <= 0 || backoff > MAX_BACKOFF then MAX_BACKOFF else backoff
  }

  /** The interval that the backoff stands for, over unbounded integers. */
  function Formula(base: int, failCount: nat): int {
    if base * Pow2(failCount) < MAX_BACKOFF then base * Pow2(failCount) else MAX_BACKOFF
  }

  /** What the low 64 bits of base * 2^min(failCount, 20) must be for the result to be right. */
  predicate Representable(base: int, failCount: nat) {
    var shifted := base * Pow2(if failCount > MAX_SHIFT then MAX_SHIFT else failCount);
    var low := shifted % WORD;
    if failCount == 0 then base <= MAX_BACKOFF
    else (failCount <= MAX_SHIFT && shifted < WORD) || low == 0 || low >= MAX_BACKOFF
  }

  lemma {:induction false} ScaleMonotone(base: int, p: int, q: int)
    requires base > 0 && p <= q
    ensures base * p <= base * q
  {
  }

  /** For every positive base and every number of failures, the interval is min(24h, base * 2^failures) if and
      only if the low 64 bits of the shifted base do not fall, wrapped or cut short, below 24 hours. */
  lemma {:induction false} IntervalExact(base: Duration, failCount: nat)
    requires base > 0
    ensures Interval(base, failCount) == Formula(base, failCount) <==> Representable(base, failCount)
  {
    var shift := if failCount > MAX_SHIFT then MAX_SHIFT else failCount;
    ScaleMonotone(base, 1, Pow2(shift));
    if failCount > MAX_SHIFT {
      Pow2Doubles(shift, failCount);
      LaterDoubles(base, Pow2(shift), Pow2(failCount));
    }
    CutShort(base * Pow2(shift));
  }

  lemma {:induction false} LaterDoubles(base: int, p: int, q: int)
    requires base > 0 && 2 * p <= q
    ensures base * q >= 2 * (base * p)
  {
    ScaleMonotone(base, 2 * p, q);
  }

  /** When the wrapped word, cut at 24 hours, is the integer cut at 24 hours. */
  lemma {:induction false} CutShort(x: int)
    requires x > 0
    ensures var low, word := x % WORD, Wrapped(x);
      (word <= 0 || word >= MAX_BACKOFF <==> low == 0 || low >= MAX_BACKOFF)
      && (0 < word < MAX_BACKOFF ==> word == low)
      && (x < WORD ==> low == x)
  {
  }

  /** A base for which the interval is right at every failure count; past 20 failures nothing changes, so
      counts 0 to 21 decide. */
  predicate Sound(base: int) {
    base > 0 && forall n: nat :: n <= MAX_SHIFT + 1 ==> Representable(base, n)
  }

  /** The backoff refines its formula for all failure counts if and only if it does for the first 22. */
  lemma {:induction false} FormulaHoldsIff(base: Duration)
    requires base > 0
    ensures (forall n: nat :: Interval(base, n) == Formula(base, n)) <==> Sound(base)
  {
    forall n: nat ensures Interval(base, n) == Formula(base, n) <==> Representable(base, n) {
      IntervalExact(base, n);
    }
    forall n: nat | n > MAX_SHIFT ensures Representable(base, n) == Representable(base, MAX_SHIFT + 1) {
    }
  }

  // ----- More failures -----

  lemma {:induction false} FormulaMonotone(base: int, fewer: nat, more: nat)
    requires base > 0 && fewer <= more
    ensures Formula(base, fewer) <= Formula(base, more) <= MAX_BACKOFF
  {
    if fewer < more {
      Pow2Doubles(fewer, more);
    }
    ScaleMonotone(base, Pow2(fewer), Pow2(more));
  }

  ghost predicate Monotone(base: Duration) {
    forall fewer: nat, more: nat :: fewer <= more ==> Interval(base, fewer) <= Interval(base, more)
  }

  /** More failures never bring the next poll nearer if and only if the first 20 shifts are represented: the
      cut at 20 alone does no harm, a wrap within it always does. */
  lemma {:induction false} MonotoneIff(base: Duration)
    requires base > 0
    ensures Monotone(base) <==> forall n: nat :: n <= MAX_SHIFT ==> Representable(base, n)
  {
    if forall n: nat :: n <= MAX_SHIFT ==> Representable(base, n) {
      forall fewer: nat, more: nat | fewer <= more ensures Interval(base, fewer) <= Interval(base, more) {
        var f := if fewer > MAX_SHIFT then MAX_SHIFT else fewer;
        var m := if more > MAX_SHIFT then MAX_SHIFT else more;
        IntervalCut(base, fewer);
        IntervalCut(base, more);
        IntervalExact(base, f);
        IntervalExact(base, m);
        FormulaMonotone(base, f, m);
      }
    } else {
      var n: nat :| n <= MAX_SHIFT && !Representable(base, n);
      var s := FirstWrap(base, n);
      WrapDrops(base, s);
    }
  }

  lemma {:induction false} IntervalCut(base: Duration, n: nat)
    ensures Interval(base, n) == Interval(base, if n > MAX_SHIFT then MAX_SHIFT else n)
  {
  }

  lemma {:induction false} FirstWrap(base: Duration, n: nat) returns (s: nat)
    requires base > 0 && n <= MAX_SHIFT && !Representable(base, n)
    ensures s <= n && !Representable(base, s) && (s > 0 ==> Representable(base, s - 1))
  {
    s := n;
    if n > 0 && !Representable(base, n - 1) {
      s := FirstWrap(base, n - 1);
    }
  }

  /** Where the shift first goes wrong, the interval falls. */
  lemma {:induction false} WrapDrops(base: Duration, s: nat)
    requires base > 0 && s <= MAX_SHIFT && !Representable(base, s) && (s > 0 ==> Representable(base, s - 1))
    ensures !Monotone(base)
  {
    if s == 0 {
      assert Interval(base, 1) <= MAX_BACKOFF < Interval(base, 0);
    } else {
      WrapIsShort(base, s);
      BeforeWrap(base, s - 1);
      assert Interval(base, s - 1) > Interval(base, s);
    }
  }

  lemma {:induction false} BeforeWrap(base: Duration, n: nat)
    requires base > 0 && Representable(base, n) && base * Pow2(n + 1) >= WORD
    ensures Interval(base, n) == MAX_BACKOFF
  {
    Twice(base, Pow2(n));
    IntervalExact(base, n);
  }

  lemma {:induction false} Twice(base: int, p: int)
    ensures base * (2 * p) == 2 * (base * p)
  {
  }

  lemma {:induction false} WrapIsShort(base: Duration, s: nat)
    requires base > 0 && 1 <= s <= MAX_SHIFT && !Representable(base, s)
    ensures Interval(base, s) < MAX_BACKOFF && base * Pow2(s) >= WORD
  {
    ScaleMonotone(base, 1, Pow2(s));
    CutShort(base * Pow2(s));
  }

  /** Below 2^43 ns nothing wraps: the wait never shrinks, and the formula holds for all failure counts if
      and only if the base reaches 24 hours by the cut at 20. */
  lemma {:induction false} SmallBaseIff(base: Duration)
    requires 0 < base < 0x800_0000_0000
    ensures Monotone(base)
    ensures Sound(base) <==> base * 0x10_0000 >= MAX_BACKOFF
  {
    forall n: nat
      ensures Representable(base, n) <==> n <= MAX_SHIFT || base * 0x10_0000 >= MAX_BACKOFF
    {
      ShiftFits(base, if n > MAX_SHIFT then MAX_SHIFT else n);
      Pow2Values();
    }
    assert Sound(base) ==> Representable(base, MAX_SHIFT + 1);
    MonotoneIff(base);
  }

  lemma {:induction false} ShiftFits(base: Duration, shift: nat)
    requires 0 < base < 0x800_0000_0000 && shift <= MAX_SHIFT
    ensures 0 < base * Pow2(shift) < WORD / 2
  {
    Pow2Values();
    if shift < MAX_SHIFT {
      Pow2Doubles(shift, MAX_SHIFT);
    }
    ScaleMonotone(base, Pow2(shift), 0x10_0000);
    ScaleMonotone(base, 1, Pow2(shift));
  }

  // ----- Feeds with their own interval -----

  const MINUTE := 60 * SECOND

  /** The forms store whole minutes. Up to a day the backoff refines its formula, wrapping included, and
      beyond a day it does not: the base alone is then more than the cap. */
  lemma {:induction false} WholeMinutesIff(defaultInterval: Duration, minutes: int)
    requires 1 <= minutes && minutes * MINUTE < WORD / 2
    ensures Base(defaultInterval, 60 * minutes) == minutes * MINUTE
    ensures Sound(Base(defaultInterval, 60 * minutes)) <==> minutes <= 1440
  {
    var base := minutes * MINUTE;
    if minutes <= 1440 {
      forall n: nat | n <= MAX_SHIFT + 1 ensures Representable(base, n) {
        MinutesRepresentable(minutes, n);
      }
    } else {
      assert !Representable(base, 0);
    }
  }

  lemma {:induction false} MinutesRepresentable(minutes: int, n: nat)
    requires 1 <= minutes <= 1440
    ensures Representable(minutes * MINUTE, n)
  {
    Pow2Values();
    var shift := if n > MAX_SHIFT then MAX_SHIFT else n;
    if shift <= 17 {
      if shift < 17 {
        Pow2Doubles(shift, 17);
      }
      ScaleMonotone(minutes * MINUTE, Pow2(shift), 0x2_0000);
    } else {
      MinutesMissWrap(minutes);
    }
    if n > MAX_SHIFT {
      assert minutes * MINUTE * 0x10_0000 % WORD >= MAX_BACKOFF;
    }
  }

  /** Shifted by 18, 19 or 20, no number of minutes up to a day comes within a day above a multiple of 2^64. */
  lemma {:induction false} MinutesMissWrap(minutes: int)
    requires 1 <= minutes <= 1440
    ensures minutes * MINUTE * 0x4_0000 % WORD >= MAX_BACKOFF
    ensures minutes * MINUTE * 0x8_0000 % WORD >= MAX_BACKOFF
    ensures minutes * MINUTE * 0x10_0000 % WORD >= MAX_BACKOFF
  {
  }

  /** A feed set to two days waits two days before its first failure and one day after it. */
  lemma {:induction false} TwoDaysShrink()
    ensures var base := Base(0, 60 * 2880);
      !Monotone(base) && Interval(base, 0) == 2 * MAX_BACKOFF && Interval(base, 1) == MAX_BACKOFF
  {
    var base := Base(0, 60 * 2880);
    assert base == 2 * MAX_BACKOFF && base * Pow2(1) == 4 * MAX_BACKOFF;
    assert Interval(base, 1) < Interval(base, 0);
  }

  /** A wrap within a day: with a configured default of 70369 s, about 19.5 hours, the wait after 18 failures
      is less than the default itself. */
  lemma {:induction false} WrapShortensBackoff()
    ensures var base := Base(70369 * SECOND, 0);
      !Monotone(base) && Interval(base, 17) == MAX_BACKOFF && Interval(base, 18) < Interval(base, 0) == 70369 * SECOND
  {
    Pow2Values();
    var base := Base(70369 * SECOND, 0);
    assert Interval(base, 18) < Interval(base, 17);
  }

  // ----- Sweeps -----

  /** A request that cannot be built leaves the poll state as it was. */
  datatype Outcome = Fetched | Failed | NotSent

  datatype Feed = Feed(url: string, pollInterval: int, failCount: nat, lastPolled: Option<int>)

  /** One sweep: when it looks at the feed, what a poll would give, and the time that poll would record. */
  datatype Sweep = Sweep(now: int, outcome: Outcome, stamp: int)

  predicate Due(defaultInterval: Duration, feed: Feed, now: int) {
    feed.url != "" &&
    match feed.lastPolled {
      case None => true
      case Some(last) => now - last >= Interval(Base(defaultInterval, feed.pollInterval), feed.failCount)
    }
  }

  function Polled(feed: Feed, s: Sweep): Feed {
    match s.outcome
    case NotSent => feed
    case Fetched => feed.(failCount := 0, lastPolled := Some(s.stamp))
    case Failed => feed.(failCount := feed.failCount + 1, lastPolled := Some(s.stamp))
  }

  function Swept(defaultInterval: Duration, feed: Feed, sweeps: seq<Sweep>): Feed {
    if sweeps == [] then feed
    else
      var before, s := Swept(defaultInterval, feed, sweeps[..|sweeps| - 1]), sweeps[|sweeps| - 1];
      if Due(defaultInterval, before, s.now) then Polled(before, s) else before
  }

  /** The polls that a run of sweeps made and recorded. */
  function Polls(defaultInterval: Duration, feed: Feed, sweeps: seq<Sweep>): seq<Sweep> {
    if sweeps == [] then []
    else
      var before, s := sweeps[..|sweeps| - 1], sweeps[|sweeps| - 1];
      var polls := Polls(defaultInterval, feed, before);
      if Due(defaultInterval, Swept(defaultInterval, feed, before), s.now) && s.outcome != NotSent
      then polls + [s] else polls
  }

  function FailuresInARow(polls: seq<Sweep>): nat {
    if polls == [] || polls[|polls| - 1].outcome != Failed then 0
    else 1 + FailuresInARow(polls[..|polls| - 1])
  }

  lemma {:induction false} StateRemembersPolls(defaultInterval: Duration, feed: Feed, sweeps: seq<Sweep>)
    requires feed.failCount == 0 && feed.lastPolled == None
    ensures var polls, now := Polls(defaultInterval, feed, sweeps), Swept(defaultInterval, feed, sweeps);
      now.failCount == FailuresInARow(polls)
      && now.lastPolled == (if polls == [] then None else Some(polls[|polls| - 1].stamp))
      && now.url == feed.url && now.pollInterval == feed.pollInterval
  {
    if sweeps != [] {
      var before, s := sweeps[..|sweeps| - 1], sweeps[|sweeps| - 1];
      StateRemembersPolls(defaultInterval, feed, before);
      var polls := Polls(defaultInterval, feed, before);
      assert (polls + [s])[..|polls|] == polls;
    }
  }

  /** A calendar without a feed address is never polled, and keeps its state. */
  lemma {:induction false} NoFeedNoPoll(defaultInterval: Duration, feed: Feed, sweeps: seq<Sweep>)
    requires feed.url == ""
    ensures Polls(defaultInterval, feed, sweeps) == [] && Swept(defaultInterval, feed, sweeps) == feed
  {
    if sweeps != [] {
      NoFeedNoPoll(defaultInterval, feed, sweeps[..|sweeps| - 1]);
    }
  }

  /** Over any run of sweeps of a new feed, the next sweep polls if and only if nothing was recorded yet or
      min(24h, base * 2^k) has passed since the latest poll, k being the failures in a row that end there. */
  lemma {:induction false} NextPoll(defaultInterval: Duration, feed: Feed, sweeps: seq<Sweep>, now: int)
    requires feed.url != "" && feed.failCount == 0 && feed.lastPolled == None
    requires Sound(Base(defaultInterval, feed.pollInterval))
    ensures Due(defaultInterval, Swept(defaultInterval, feed, sweeps), now) <==>
      Waited(Base(defaultInterval, feed.pollInterval), Polls(defaultInterval, feed, sweeps), now)
  {
    StateRemembersPolls(defaultInterval, feed, sweeps);
    FormulaHoldsIff(Base(defaultInterval, feed.pollInterval));
    var k := FailuresInARow(Polls(defaultInterval, feed, sweeps));
    assert Interval(Base(defaultInterval, feed.pollInterval), k) == Formula(Base(defaultInterval, feed.pollInterval), k);
  }

  predicate Waited(base: int, polls: seq<Sweep>, now: int) {
    polls == [] || now - polls[|polls| - 1].stamp >= Formula(base, FailuresInARow(polls))
  }

  /** In particular for every feed set to between one minute and a day. */
  lemma {:induction false} NextPollInMinutes(defaultInterval: Duration, url: string, minutes: int, sweeps: seq<Sweep>, now: int)
    requires url != "" && 1 <= minutes <= 1440
    ensures var feed := Feed(url, 60 * minutes, 0, None);
      Due(defaultInterval, Swept(defaultInterval, feed, sweeps), now) <==>
        Waited(minutes * MINUTE, Polls(defaultInterval, feed, sweeps), now)
  {
    WholeMinutesIff(defaultInterval, minutes);
    NextPoll(defaultInterval, Feed(url, 60 * minutes, 0, None), sweeps, now);
  }
}
