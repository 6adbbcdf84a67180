/** The per-token sliding-window limiter of the share service: the table that compacts its slices in place,
    and the unbounded history of admitted requests that it must agree with. */
module RateLimiter {

  /** A Go slice that starts at the head of its backing array: len elements are live, the rest is stale. */
  datatype Slice = Slice(buf: array<int>, len: nat)

  datatype Verdict = Verdict(admitted: bool, wait: int)

  datatype Request = Request(token: int, at: int)

  /** The times later than the cutoff, in order. */
  function Kept(times: seq<int>, cutoff: int): seq<int> {
    if times == [] then []
    else
      var front, last := Kept(times[..|times| - 1], cutoff), times[|times| - 1];
      if last > cutoff then front + [last] else front
  }

  function Judged(max: nat, window: int, times: seq<int>, now: int): Verdict
    requires max >= 1
  {
    var kept := Kept(times, now - window);
    if |kept| < max then Verdict(true, 0) else Verdict(false, kept[0] + window - now)
  }

  function TimesAfter(max: nat, window: int, times: seq<int>, now: int): seq<int>
    requires max >= 1
  {
    var kept := Kept(times, now - window);
    if Judged(max, window, times, now).admitted then kept + [now] else kept
  }

  /** The times held for the token after serving rs. */
  function Table(max: nat, window: int, rs: seq<Request>, token: int): seq<int>
    requires max >= 1
  {
    if rs == [] then []
    else
      var times, q := Table(max, window, rs[..|rs| - 1], token), rs[|rs| - 1];
      if q.token == token then TimesAfter(max, window, times, q.at) else times
  }

  /** What the limiter answers to q after serving rs. */
  function Answer(max: nat, window: int, rs: seq<Request>, q: Request): Verdict
    requires max >= 1
  {
    Judged(max, window, Table(max, window, rs, q.token), q.at)
  }

  class Limiter {
    var hits: map<int, Slice>
    const max: nat
    const window: int
    ghost var served: seq<Request>

    ghost function Buffers(): set<array<int>>
      reads this
    {
      set k | k in hits :: hits[k].buf
    }

    ghost predicate Shaped()
      reads this
    {
      && (forall k <- hits :: hits[k].len <= hits[k].buf.Length)
      && (forall j, k :: j in hits && k in hits && j != k ==> hits[j].buf != hits[k].buf)
    }

    /** The times the limiter holds for a token: none for one it has not seen. */
    ghost function Live(token: int): seq<int>
      requires Shaped()
      reads this, Buffers()
    {
      if token in hits then hits[token].buf[..hits[token].len] else []
    }

    ghost predicate Valid()
      reads this, Buffers()
    {
      && max >= 1
      && Shaped()
      && forall k :: Live(k) == Table(max, window, served, k)
    }

    constructor (max: nat, window: int)
      requires max >= 1
      ensures Valid() && served == [] && hits == map[] && this.max == max && this.window == window
    {
      hits := map[];
      served := [];
      this.max := max;
      this.window := window;
    }

    /** Only the token's own entry and buffer may change; the buffer is the old one, compacted, or a new one. */
    method Allow(token: int, now: int) returns (admitted: bool, wait: int)
      requires Valid()
      modifies this`hits, this`served, if token in hits then {hits[token].buf} else {}
      ensures Valid() && served == old(served) + [Request(token, now)]
      ensures Verdict(admitted, wait) == Answer(max, window, old(served), Request(token, now))
      ensures hits.Keys == old(hits.Keys) + {token}
      ensures forall k | k in old(hits) && k != token :: hits[k] == old(hits[k])
      ensures fresh(hits[token].buf) || (token in old(hits) && hits[token].buf == old(hits[token].buf))
    {
      var kept := CompactEntry(token, now - window);
      if kept.len >= max {
        assert kept.buf[0] == kept.buf[..kept.len][0];
        KeptAbove(Table(max, window, served, token), now - window, 0);
        var retry := kept.buf[0] + window - now;
        if retry < 0 {
          retry := 0;
        }
        Store(token, kept, now);
        return false, retry;
      }
      kept := Append(kept, now);
      assert OthersLive(token);
      Store(token, kept, now);
      return true, 0;
    }

    /** The table is not yet told: until Store, the token's entry and its buffer disagree. */
    method CompactEntry(token: int, cutoff: int) returns (kept: Slice)
      requires Valid()
      modifies if token in hits then {hits[token].buf} else {}
      ensures OthersLive(token) && kept.len <= kept.buf.Length
      ensures kept.buf[..kept.len] == Kept(Table(max, window, served, token), cutoff)
      ensures if token in hits then kept.buf == hits[token].buf else fresh(kept.buf)
    {
      assert Live(token) == Table(max, window, served, token);
      assert OthersLive(token);
      var times := Fetch(token);
      var n := Compact(times, cutoff);
      kept := Slice(times.buf, n);
    }

    ghost predicate OthersLive(token: int)
      requires max >= 1
      reads this, Buffers()
    {
      Shaped() && forall k | k != token :: Live(k) == Table(max, window, served, k)
    }

    method Fetch(token: int) returns (times: Slice)
      requires Shaped()
      ensures times.len <= times.buf.Length
      ensures times.buf[..times.len] == Live(token)
      ensures if token in hits then times == hits[token] else fresh(times.buf)
    {
      if token in hits {
        times := hits[token];
      } else {
        var none := new int[0];
        times := Slice(none, 0);
      }
    }

    method Store(token: int, s: Slice, now: int)
      requires max >= 1 && OthersLive(token)
      requires s.len <= s.buf.Length
      requires s.buf[..s.len] == TimesAfter(max, window, Table(max, window, served, token), now)
      requires forall k | k in hits && k != token :: hits[k].buf != s.buf
      modifies this`hits, this`served
      ensures Valid() && hits == old(hits)[token := s] && served == old(served) + [Request(token, now)]
    {
      forall k
        ensures Table(max, window, served + [Request(token, now)], k)
             == if k == token then s.buf[..s.len] else Table(max, window, served, k)
      {
        TableSnoc(max, window, served, Request(token, now), k);
      }
      hits := hits[token := s];
      served := served + [Request(token, now)];
    }
  }

  lemma {:induction false} TableSnoc(max: nat, window: int, rs: seq<Request>, q: Request, token: int)
    requires max >= 1
    ensures Table(max, window, rs + [q], token)
         == if q.token == token then TimesAfter(max, window, Table(max, window, rs, token), q.at)
            else Table(max, window, rs, token)
  {
    assert (rs + [q])[..|rs|] == rs;
  }

  /** Reads and writes the same array: position n is written only after it has been read. */
  method Compact(times: Slice, cutoff: int) returns (n: nat)
    requires times.len <= times.buf.Length
    modifies times.buf
    ensures n <= times.len
    ensures times.buf[..n] == Kept(old(times.buf[..times.len]), cutoff)
  {
    ghost var was := times.buf[..times.len];
    n := 0;
    for i := 0 to times.len
      invariant n <= i
      invariant times.buf[..n] == Kept(was[..i], cutoff)
      invariant times.buf[i..times.len] == was[i..]
    {
      var t := times.buf[i];
      assert t == times.buf[i..times.len][0] == was[i];
      assert was[..i + 1][..i] == was[..i];
      assert times.buf[i..times.len][1..] == was[i..][1..];
      if t > cutoff {
        times.buf[n] := t;
        n := n + 1;
      }
    }
    assert was[..times.len] == was;
  }

  /** Writes in place while the array has room, and moves to a larger one otherwise. */
  method Append(s: Slice, x: int) returns (r: Slice)
    requires s.len <= s.buf.Length
    modifies s.buf
    ensures r.len == s.len + 1 <= r.buf.Length
    ensures r.buf[..r.len] == old(s.buf[..s.len]) + [x]
    ensures r.buf == s.buf || (fresh(r.buf) && s.buf[..] == old(s.buf[..]))
  {
    if s.len < s.buf.Length {
      s.buf[s.len] := x;
      r := Slice(s.buf, s.len + 1);
    } else {
      var larger := new int[2 * s.len + 1];
      for i := 0 to s.len
        invariant larger[..i] == s.buf[..i]
        invariant s.buf[..] == old(s.buf[..])
      {
        larger[i] := s.buf[i];
      }
      larger[s.len] := x;
      r := Slice(larger, s.len + 1);
    }
  }

  /** What is kept is later than the cutoff, so the wait of a refusal is positive and its clamp never acts. */
  lemma {:induction false} KeptAbove(times: seq<int>, cutoff: int, i: nat)
    requires i < |Kept(times, cutoff)|
    ensures Kept(times, cutoff)[i] > cutoff && Kept(times, cutoff)[i] in times
  {
    var front := times[..|times| - 1];
    if i < |Kept(front, cutoff)| {
      KeptAbove(front, cutoff, i);
    }
  }

  // ----- Whole runs -----

  /** How many requests of the history carry the token and lie in (from, to]. */
  function Count(history: seq<Request>, token: int, from: int, to: int): nat {
    if history == [] then 0
    else
      var h := history[|history| - 1];
      Count(history[..|history| - 1], token, from, to) + if h.token == token && from < h.at <= to then 1 else 0
  }

  /** The reference: keep every admitted request for ever, and count. */
  function Admitted(max: nat, window: int, rs: seq<Request>): seq<Request> {
    if rs == [] then []
    else
      var before, q := Admitted(max, window, rs[..|rs| - 1]), rs[|rs| - 1];
      if Count(before, q.token, q.at - window, q.at) < max then before + [q] else before
  }

  /** The clock does not go back between two requests of one token. */
  ghost predicate Steady(rs: seq<Request>) {
    forall i, j :: 0 <= i < j < |rs| && rs[i].token == rs[j].token ==> rs[i].at <= rs[j].at
  }

  function TimesOf(history: seq<Request>, token: int): seq<int> {
    if history == [] then []
    else
      var h := history[|history| - 1];
      var front := TimesOf(history[..|history| - 1], token);
      if h.token == token then front + [h.at] else front
  }

  ghost predicate Past(rs: seq<Request>, token: int, bound: int) {
    forall i :: 0 <= i < |rs| && rs[i].token == token ==> rs[i].at <= bound
  }

  lemma {:induction false} KeptTwice(times: seq<int>, low: int, high: int)
    requires low <= high
    ensures Kept(Kept(times, low), high) == Kept(times, high)
  {
    if times != [] {
      var front := times[..|times| - 1];
      KeptTwice(front, low, high);
      var x := times[|times| - 1];
      if x > low {
        KeptSnoc(Kept(front, low), x, high);
      }
    }
  }

  lemma {:induction false} KeptSnoc(times: seq<int>, x: int, cutoff: int)
    ensures Kept(times + [x], cutoff) == if x > cutoff then Kept(times, cutoff) + [x] else Kept(times, cutoff)
  {
    assert (times + [x])[..|times|] == times;
  }

  lemma {:induction false} CountIsKept(history: seq<Request>, token: int, from: int, to: int)
    requires Past(history, token, to)
    ensures Count(history, token, from, to) == |Kept(TimesOf(history, token), from)|
  {
    if history != [] {
      var front, h := history[..|history| - 1], history[|history| - 1];
      assert history[|history| - 1].token == token ==> history[|history| - 1].at <= to;
      CountIsKept(front, token, from, to);
      if h.token == token {
        KeptSnoc(TimesOf(front, token), h.at, from);
      }
    }
  }

  lemma {:induction false} PastSnoc(rs: seq<Request>, q: Request, token: int, bound: int)
    ensures Past(rs + [q], token, bound) <==> Past(rs, token, bound) && (q.token == token ==> q.at <= bound)
  {
    var all := rs + [q];
    assert all[|rs|] == q;
    assert forall i :: 0 <= i < |rs| ==> all[i] == rs[i];
  }

  lemma {:induction false} SteadySnoc(rs: seq<Request>, q: Request)
    requires Steady(rs + [q])
    ensures Steady(rs) && Past(rs, q.token, q.at)
  {
    var all := rs + [q];
    assert all[|rs|] == q;
    assert forall i :: 0 <= i < |rs| ==> all[i] == rs[i];
  }

  lemma {:induction false} AdmittedPast(max: nat, window: int, rs: seq<Request>, token: int, bound: int)
    requires Past(rs, token, bound)
    ensures Past(Admitted(max, window, rs), token, bound)
  {
    if rs != [] {
      var front, q := rs[..|rs| - 1], rs[|rs| - 1];
      assert rs == front + [q];
      PastSnoc(front, q, token, bound);
      AdmittedPast(max, window, front, token, bound);
      PastSnoc(Admitted(max, window, front), q, token, bound);
      AdmittedSnoc(max, window, front, q);
    }
  }

  /** From the last cutoff on, the table holds what the unbounded history holds. */
  lemma {:induction false} TableIsHistory(max: nat, window: int, rs: seq<Request>, token: int, cutoff: int)
    requires max >= 1 && Steady(rs) && Past(rs, token, cutoff + window)
    ensures Kept(Table(max, window, rs, token), cutoff)
         == Kept(TimesOf(Admitted(max, window, rs), token), cutoff)
    decreases |rs|, 0
  {
    if rs != [] {
      var front, q := rs[..|rs| - 1], rs[|rs| - 1];
      assert rs == front + [q];
      SteadySnoc(front, q);
      PastSnoc(front, q, token, cutoff + window);
      ServeStep(max, window, front, q, token);
      if q.token != token {
        TableIsHistory(max, window, front, token, cutoff);
      } else {
        OwnStep(max, window, front, q, cutoff);
      }
    }
  }

  lemma {:induction false} OwnStep(max: nat, window: int, rs: seq<Request>, q: Request, cutoff: int)
    requires max >= 1 && Steady(rs + [q]) && q.at - window <= cutoff
    ensures var times, all := Table(max, window, rs, q.token), TimesOf(Admitted(max, window, rs), q.token);
      Kept(TimesAfter(max, window, times, q.at), cutoff)
      == Kept(if Count(Admitted(max, window, rs), q.token, q.at - window, q.at) < max then all + [q.at] else all, cutoff)
    decreases |rs|, 2
  {
    RefinesHistory(max, window, rs, q);
    var times, all := Table(max, window, rs, q.token), TimesOf(Admitted(max, window, rs), q.token);
    SameOnward(times, all, q.at - window, q.at, cutoff);
  }

  lemma {:induction false} ServeStep(max: nat, window: int, rs: seq<Request>, q: Request, token: int)
    requires max >= 1
    ensures Table(max, window, rs + [q], token)
         == if q.token == token then TimesAfter(max, window, Table(max, window, rs, token), q.at)
            else Table(max, window, rs, token)
    ensures TimesOf(Admitted(max, window, rs + [q]), token)
         == if q.token == token && Count(Admitted(max, window, rs), token, q.at - window, q.at) < max
            then TimesOf(Admitted(max, window, rs), token) + [q.at] else TimesOf(Admitted(max, window, rs), token)
  {
    TableSnoc(max, window, rs, q, token);
    AdmittedSnoc(max, window, rs, q);
    TimesOfSnoc(Admitted(max, window, rs), q, token);
  }

  lemma {:induction false} TimesOfSnoc(history: seq<Request>, h: Request, token: int)
    ensures TimesOf(history + [h], token)
         == if h.token == token then TimesOf(history, token) + [h.at] else TimesOf(history, token)
  {
    assert (history + [h])[..|history|] == history;
  }

  lemma {:induction false} SameOnward(times: seq<int>, all: seq<int>, low: int, x: int, cutoff: int)
    requires low <= cutoff && Kept(times, low) == Kept(all, low)
    ensures Kept(Kept(times, low), cutoff) == Kept(all, cutoff)
    ensures Kept(Kept(times, low) + [x], cutoff) == Kept(all + [x], cutoff)
  {
    KeptTwice(times, low, cutoff);
    KeptTwice(all, low, cutoff);
    KeptSnoc(Kept(times, low), x, cutoff);
    KeptSnoc(all, x, cutoff);
  }

  /** The limiter refines its unbounded history: it admits exactly when fewer than max admitted requests of
      the token lie in the window that ends now. */
  lemma {:induction false} RefinesHistory(max: nat, window: int, rs: seq<Request>, q: Request)
    requires max >= 1 && Steady(rs + [q])
    ensures Kept(Table(max, window, rs, q.token), q.at - window)
         == Kept(TimesOf(Admitted(max, window, rs), q.token), q.at - window)
    ensures Past(rs, q.token, q.at)
    ensures Answer(max, window, rs, q).admitted
        <==> Count(Admitted(max, window, rs), q.token, q.at - window, q.at) < max
    decreases |rs|, 1
  {
    SteadySnoc(rs, q);
    TableIsHistory(max, window, rs, q.token, q.at - window);
    AdmittedPast(max, window, rs, q.token, q.at);
    CountIsKept(Admitted(max, window, rs), q.token, q.at - window, q.at);
  }

  lemma {:induction false} AdmittedSnoc(max: nat, window: int, rs: seq<Request>, q: Request)
    ensures Admitted(max, window, rs + [q])
         == if Count(Admitted(max, window, rs), q.token, q.at - window, q.at) < max
            then Admitted(max, window, rs) + [q] else Admitted(max, window, rs)
  {
    AdmittedLast(max, window, rs + [q], rs, q);
  }

  lemma {:induction false} AdmittedLast(max: nat, window: int, all: seq<Request>, rs: seq<Request>, q: Request)
    requires all != [] && all[..|all| - 1] == rs && all[|all| - 1] == q
    ensures Admitted(max, window, all)
         == if Count(Admitted(max, window, rs), q.token, q.at - window, q.at) < max
            then Admitted(max, window, rs) + [q] else Admitted(max, window, rs)
  {}

  lemma {:induction false} CountSnoc(history: seq<Request>, h: Request, token: int, from: int, to: int)
    ensures Count(history + [h], token, from, to)
         == Count(history, token, from, to) + if h.token == token && from < h.at <= to then 1 else 0
  {
    assert (history + [h])[..|history|] == history;
  }

  /** As many requests as it is long, all the same. */
  predicate IsBurst(rs: seq<Request>, q: Request) {
    forall i :: 0 <= i < |rs| ==> rs[i] == q
  }

  lemma {:induction false} CountBurst(rs: seq<Request>, q: Request, from: int, to: int)
    requires IsBurst(rs, q)
    ensures Count(rs, q.token, from, to) == if from < q.at <= to then |rs| else 0
  {
    if rs != [] {
      CountBurst(rs[..|rs| - 1], q, from, to);
    }
  }

  /** A burst is admitted up to the limit. */
  lemma {:induction false} BurstAdmitted(max: nat, window: int, rs: seq<Request>, q: Request)
    requires IsBurst(rs, q) && |rs| <= max && window > 0
    ensures Admitted(max, window, rs) == rs
  {
    if rs != [] {
      var front := rs[..|rs| - 1];
      BurstAdmitted(max, window, front, q);
      CountBurst(front, q, q.at - window, q.at);
      assert rs == front + [q];
    }
  }

  lemma {:induction false} BurstHeld(max: nat, window: int, rs: seq<Request>, q: Request)
    requires 1 <= max && IsBurst(rs, q) && |rs| <= max && window > 0
    ensures |Table(max, window, rs, q.token)| == |rs|
    ensures forall x <- Table(max, window, rs, q.token) :: x == q.at
  {
    if rs != [] {
      var front := rs[..|rs| - 1];
      BurstHeld(max, window, front, q);
      KeptAll(Table(max, window, front, q.token), q.at - window);
    }
  }

  lemma {:induction false} LateAdmitted(max: nat, window: int, rs: seq<Request>, q: Request)
    requires max >= 1 && window > 0 && IsBurst(rs, q) && |rs| == max
    ensures var late := Request(q.token, q.at + window); Admitted(max, window, rs + [late]) == rs + [late]
  {
    var late := Request(q.token, q.at + window);
    BurstAdmitted(max, window, rs, q);
    CountBurst(rs, q, late.at - window, late.at);
    assert Count(Admitted(max, window, rs), late.token, late.at - window, late.at) < max;
    AdmittedSnoc(max, window, rs, late);
  }

  /** The steady clock is needed, for every limit above one and every window: after a burst and one request
      a window later the table has forgotten the burst, and a request that carries the burst's time is
      admitted although the window that ends there holds max admissions already. */
  lemma {:induction false} ClockGoingBackAdmits(max: nat, window: int, rs: seq<Request>, q: Request)
    requires max >= 2 && window > 0 && IsBurst(rs, q) && |rs| == max
    ensures var later := rs + [Request(q.token, q.at + window)];
      Answer(max, window, later, q).admitted
      && Count(Admitted(max, window, later), q.token, q.at - window, q.at) == max
  {
    var late := Request(q.token, q.at + window);
    LateAdmitted(max, window, rs, q);
    CountSnoc(rs, late, q.token, q.at - window, q.at);
    CountBurst(rs, q, q.at - window, q.at);
    ForgetsAll(max, window, rs, late, q);
  }

  /** And for every limit: after a burst, any earlier request is refused, although the window that ends
      there holds no admission. */
  lemma {:induction false} ClockGoingBackRefuses(max: nat, window: int, rs: seq<Request>, q: Request, early: int)
    requires max >= 1 && window > 0 && IsBurst(rs, q) && |rs| == max && early < q.at
    ensures !Answer(max, window, rs, Request(q.token, early)).admitted
    ensures Count(Admitted(max, window, rs), q.token, early - window, early) == 0
  {
    BurstAdmitted(max, window, rs, q);
    CountBurst(rs, q, early - window, early);
    BurstHeld(max, window, rs, q);
    KeptAll(Table(max, window, rs, q.token), early - window);
  }

  // ----- Which clocks will do -----

  /** A request made when the clock stands at a tick. */
  datatype Call = Call(token: int, tick: nat)

  /** Calls in the order of their ticks, any number at each. */
  predicate InOrder(calls: seq<Call>) {
    forall i, j :: 0 <= i < j < |calls| ==> calls[i].tick <= calls[j].tick
  }

  function Read(clock: nat -> int, calls: seq<Call>): seq<Request> {
    seq(|calls|, i requires 0 <= i < |calls| => Request(calls[i].token, clock(calls[i].tick)))
  }

  /** The n-th request of a run gets the verdict of the unbounded history. */
  ghost predicate Agrees(max: nat, window: int, rs: seq<Request>, n: nat)
    requires max >= 1 && n < |rs|
  {
    Answer(max, window, rs[..n], rs[n]).admitted <==>
      Count(Admitted(max, window, rs[..n]), rs[n].token, rs[n].at - window, rs[n].at) < max
  }

  /** Every request of every run under the clock does. */
  ghost predicate Refines(max: nat, window: int, clock: nat -> int)
    requires max >= 1
  {
    forall calls: seq<Call>, n: nat :: InOrder(calls) && n < |calls| ==> Agrees(max, window, Read(clock, calls), n)
  }

  ghost predicate NeverGoesBack(clock: nat -> int) {
    forall m: nat, n: nat :: m <= n ==> clock(m) <= clock(n)
  }

  /** The limiter gives every request of every run the verdict of its unbounded history if and only if its
      clock never goes back. */
  lemma {:induction false} RefinesIff(max: nat, window: int, clock: nat -> int)
    requires max >= 1 && window > 0
    ensures Refines(max, window, clock) <==> NeverGoesBack(clock)
  {
    if NeverGoesBack(clock) {
      forall calls: seq<Call>, n: nat | InOrder(calls) && n < |calls| ensures Agrees(max, window, Read(clock, calls), n) {
        ForwardAgrees(max, window, clock, calls, n);
      }
    } else {
      var m: nat, n: nat :| m <= n && clock(m) > clock(n);
      BackDisagrees(max, window, clock, m, n);
    }
  }

  lemma {:induction false} ForwardAgrees(max: nat, window: int, clock: nat -> int, calls: seq<Call>, n: nat)
    requires max >= 1 && NeverGoesBack(clock) && InOrder(calls) && n < |calls|
    ensures Agrees(max, window, Read(clock, calls), n)
  {
    var rs := Read(clock, calls);
    assert rs[..n] + [rs[n]] == rs[..n + 1];
    assert Steady(rs[..n + 1]);
    RefinesHistory(max, window, rs[..n], rs[n]);
  }

  /** A burst at one tick and one more call at another. */
  function BurstThenOne(max: nat, m: nat, n: nat): seq<Call> {
    seq(max + 1, i requires 0 <= i <= max => if i < max then Call(0, m) else Call(0, n))
  }

  lemma {:induction false} BurstRead(clock: nat -> int, max: nat, m: nat, n: nat)
    ensures var rs := Read(clock, BurstThenOne(max, m, n));
      |rs| == max + 1 && IsBurst(rs[..max], Request(0, clock(m))) && rs[max] == Request(0, clock(n))
    ensures m <= n ==> InOrder(BurstThenOne(max, m, n))
  {}

  lemma {:induction false} BackDisagrees(max: nat, window: int, clock: nat -> int, m: nat, n: nat)
    requires max >= 1 && window > 0 && m <= n && clock(m) > clock(n)
    ensures !Refines(max, window, clock)
  {
    var calls := BurstThenOne(max, m, n);
    BurstRead(clock, max, m, n);
    RefusedAfterBurst(max, window, Read(clock, calls), clock(m), clock(n));
    assert !Agrees(max, window, Read(clock, calls), max);
  }

  lemma {:induction false} RefusedAfterBurst(max: nat, window: int, rs: seq<Request>, at: int, early: int)
    requires max >= 1 && window > 0 && |rs| == max + 1 && early < at
    requires IsBurst(rs[..max], Request(0, at)) && rs[max] == Request(0, early)
    ensures !Agrees(max, window, rs, max)
  {
    ClockGoingBackRefuses(max, window, rs[..max], Request(0, at), early);
  }

  lemma {:induction false} ForgetsAll(max: nat, window: int, rs: seq<Request>, q: Request, next: Request)
    requires max >= 2 && q.token == next.token && Past(rs, q.token, q.at - window)
    ensures Answer(max, window, rs + [q], next).admitted
  {
    var times := Table(max, window, rs, q.token);
    TimesPast(max, window, rs, q.token, q.at - window);
    if Kept(times, q.at - window) != [] {
      KeptAbove(times, q.at - window, 0);
      assert false;
    }
    TableSnoc(max, window, rs, q, q.token);
    KeptAll(Table(max, window, rs + [q], q.token), next.at - window);
  }

  // ----- No window holds more than max -----

  lemma {:induction false} CountNarrower(history: seq<Request>, token: int, from: int, to: int, low: int, high: int)
    requires low <= from && Past(history, token, high)
    ensures Count(history, token, from, to) <= Count(history, token, low, high)
  {
    if history != [] {
      assert history[|history| - 1].token == token ==> history[|history| - 1].at <= high;
      CountNarrower(history[..|history| - 1], token, from, to, low, high);
    }
  }

  lemma {:induction false} OneMoreFits(max: nat, window: int, history: seq<Request>, q: Request, token: int, end: int)
    requires Past(history, q.token, q.at) && Count(history, token, end - window, end) <= max
    ensures Count(history, q.token, q.at - window, q.at) < max ==> Count(history + [q], token, end - window, end) <= max
  {
    CountSnoc(history, q, token, end - window, end);
    if q.token == token && end - window < q.at <= end {
      CountNarrower(history, token, end - window, end, q.at - window, q.at);
    }
  }

  /** Over any run, any window of the given length, wherever it ends, holds at most max admitted requests. */
  lemma {:induction false} WindowNeverOverfull(max: nat, window: int, rs: seq<Request>, token: int, end: int)
    requires Steady(rs)
    ensures Count(Admitted(max, window, rs), token, end - window, end) <= max
  {
    if rs != [] {
      var front, q := rs[..|rs| - 1], rs[|rs| - 1];
      assert rs == front + [q];
      SteadySnoc(front, q);
      WindowNeverOverfull(max, window, front, token, end);
      AdmittedPast(max, window, front, q.token, q.at);
      OneMoreFits(max, window, Admitted(max, window, front), q, token, end);
      AdmittedLast(max, window, rs, front, q);
    }
  }

  // ----- The wait of a refusal -----

  ghost predicate Ascending(s: seq<int>) {
    forall i, j :: 0 <= i < j < |s| ==> s[i] <= s[j]
  }

  lemma {:induction false} TimesPast(max: nat, window: int, rs: seq<Request>, token: int, bound: int)
    requires max >= 1 && Past(rs, token, bound)
    ensures forall i :: 0 <= i < |Table(max, window, rs, token)| ==> Table(max, window, rs, token)[i] <= bound
  {
    if rs != [] {
      var front, q := rs[..|rs| - 1], rs[|rs| - 1];
      TimesPast(max, window, front, token, bound);
      if q.token == token {
        assert rs[|rs| - 1].at <= bound;
        var times, kept := Table(max, window, front, token), Kept(Table(max, window, front, token), q.at - window);
        forall i | 0 <= i < |kept| ensures kept[i] <= bound {
          KeptAbove(times, q.at - window, i);
        }
      }
    }
  }

  lemma {:induction false} TableAscending(max: nat, window: int, rs: seq<Request>, token: int)
    requires max >= 1 && Steady(rs)
    ensures Ascending(Table(max, window, rs, token))
  {
    if rs != [] {
      var front, q := rs[..|rs| - 1], rs[|rs| - 1];
      TableAscending(max, window, front, token);
      if q.token == token {
        var times := Table(max, window, front, token);
        KeptAscending(times, q.at - window);
        assert Past(front, token, q.at) by {
          forall i | 0 <= i < |front| && front[i].token == token ensures front[i].at <= q.at {
            assert front[i] == rs[i] && rs[|rs| - 1] == q;
          }
        }
        TimesPast(max, window, front, token, q.at);
        var kept := Kept(times, q.at - window);
        forall i | 0 <= i < |kept| ensures kept[i] <= q.at {
          KeptAbove(times, q.at - window, i);
        }
      }
    }
  }

  lemma {:induction false} KeptAscending(times: seq<int>, cutoff: int)
    requires Ascending(times)
    ensures Ascending(Kept(times, cutoff))
  {
    if times != [] {
      var front := times[..|times| - 1];
      KeptAscending(front, cutoff);
      forall i | 0 <= i < |Kept(front, cutoff)| ensures Kept(front, cutoff)[i] <= times[|times| - 1] {
        KeptAbove(front, cutoff, i);
        var j :| 0 <= j < |front| && front[j] == Kept(front, cutoff)[i];
        assert times[j] == front[j];
      }
    }
  }

  lemma {:induction false} KeptAll(times: seq<int>, cutoff: int)
    ensures |Kept(times, cutoff)| <= |times|
    ensures (forall x <- times :: x > cutoff) ==> Kept(times, cutoff) == times
    ensures (exists x <- times :: x <= cutoff) ==> |Kept(times, cutoff)| < |times|
  {
    if times != [] {
      var front, last := times[..|times| - 1], times[|times| - 1];
      assert times == front + [last];
      KeptAll(front, cutoff);
      assert last in times && forall x <- front :: x in times;
    }
  }

  /** The table never holds more than max times, so a refusal finds exactly max. */
  lemma {:induction false} TableBounded(max: nat, window: int, rs: seq<Request>, token: int)
    requires max >= 1
    ensures |Table(max, window, rs, token)| <= max
  {
    if rs != [] {
      TableBounded(max, window, rs[..|rs| - 1], token);
      KeptAll(Table(max, window, rs[..|rs| - 1], token), rs[|rs| - 1].at - window);
    }
  }

  /** Requests of the token before the promised instant leave its entry as the refusal left it. */
  lemma {:induction false} RefusedUntil(max: nat, window: int, rs: seq<Request>, between: seq<Request>, token: int, ready: int)
    requires max >= 1 && |Table(max, window, rs, token)| == max
    requires Ascending(Table(max, window, rs, token)) && Table(max, window, rs, token)[0] == ready - window
    requires forall i :: 0 <= i < |between| && between[i].token == token ==> between[i].at < ready
    ensures Table(max, window, rs + between, token) == Table(max, window, rs, token)
  {
    if between == [] {
      assert rs + between == rs;
    } else {
      var front, q := between[..|between| - 1], between[|between| - 1];
      RefusedUntil(max, window, rs, front, token, ready);
      TableSnoc(max, window, rs + front, q, token);
      assert rs + between == rs + front + [q];
      if q.token == token {
        KeptAll(Table(max, window, rs, token), q.at - window);
      }
    }
  }

  /** A refusal's wait is exactly the earliest retry: whatever other tokens ask and however often this one
      asks too early, a request of the token is admitted if and only if it comes no sooner than now + wait. */
  lemma {:induction false} WaitIsExact(max: nat, window: int, rs: seq<Request>, q: Request, between: seq<Request>, retry: int)
    requires max >= 1 && Steady(rs + [q])
    requires !Answer(max, window, rs, q).admitted
    requires forall i :: 0 <= i < |between| && between[i].token == q.token ==>
      between[i].at < q.at + Answer(max, window, rs, q).wait
    ensures Answer(max, window, rs, q).wait > 0
    ensures Answer(max, window, rs + [q] + between, Request(q.token, retry)).admitted
        <==> retry >= q.at + Answer(max, window, rs, q).wait
  {
    RefusalLeaves(max, window, rs, q);
    var served := rs + [q];
    RefusedUntil(max, window, served, between, q.token, q.at + Answer(max, window, rs, q).wait);
    FullUntilFirst(Table(max, window, served, q.token), retry - window);
  }

  lemma {:induction false} RefusalLeaves(max: nat, window: int, rs: seq<Request>, q: Request)
    requires max >= 1 && Steady(rs + [q]) && !Answer(max, window, rs, q).admitted
    ensures var full := Table(max, window, rs + [q], q.token);
      |full| == max && Ascending(full) && full[0] == q.at + Answer(max, window, rs, q).wait - window
    ensures Answer(max, window, rs, q).wait > 0
  {
    TableSnoc(max, window, rs, q, q.token);
    KeptAbove(Table(max, window, rs, q.token), q.at - window, 0);
    TableBounded(max, window, rs + [q], q.token);
    TableAscending(max, window, rs + [q], q.token);
  }

  lemma {:induction false} FullUntilFirst(full: seq<int>, cutoff: int)
    requires |full| > 0 && Ascending(full)
    ensures |Kept(full, cutoff)| < |full| <==> full[0] <= cutoff
  {
    KeptAll(full, cutoff);
    assert full[0] in full;
  }

  /** A token's entry, and so its verdicts, depend on its own requests alone. */
  function Own(rs: seq<Request>, token: int): seq<Request> {
    if rs == [] then []
    else
      var front, q := Own(rs[..|rs| - 1], token), rs[|rs| - 1];
      if q.token == token then front + [q] else front
  }

  lemma {:induction false} TokensIndependent(max: nat, window: int, rs: seq<Request>, token: int)
    requires max >= 1
    ensures Table(max, window, rs, token) == Table(max, window, Own(rs, token), token)
  {
    if rs != [] {
      var front, q := rs[..|rs| - 1], rs[|rs| - 1];
      TokensIndependent(max, window, front, token);
      if q.token == token {
        TableSnoc(max, window, Own(front, token), q, token);
      }
    }
  }
}
