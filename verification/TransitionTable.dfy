/** Detection of a zone's offset changes by sampling and binary search
    (internal/ical/vtimezone.go). A zone is any function from instants, in
    nanoseconds, to offsets in seconds. */
module TransitionTable {
  import opened Powers

  const SECOND := 1_000_000_000
  const STEP := 6 * 3600 * SECOND

  type Zone = int -> int

  datatype Transition = Transition(at: int, offsetFrom: int, offsetTo: int)

  /** The offset changes at c: it was another one just before. */
  predicate IsChange(off: Zone, c: int) {
    off(c - 1) != off(c)
  }

  /** Changes fall on whole seconds and lie at least six hours apart. */
  ghost predicate Spaced(off: Zone) {
    && (forall c :: IsChange(off, c) ==> c % SECOND == 0)
    && (forall c, d :: IsChange(off, c) && IsChange(off, d) && c < d ==> d - c >= STEP)
  }

  /** The whole second an instant is printed as. */
  function Truncated(t: int): int {
    t - t % SECOND
  }

  ghost predicate Quiet(off: Zone, a: int, b: int) {
    forall c :: a < c <= b ==> !IsChange(off, c)
  }

  lemma {:induction false} QuietConstant(off: Zone, a: int, b: int)
    requires a <= b && Quiet(off, a, b)
    ensures off(a) == off(b)
    decreases b - a
  {
    if a < b {
      QuietConstant(off, a, b - 1);
      assert !IsChange(off, b);
    }
  }

  lemma {:induction false} ChangeExists(off: Zone, a: int, b: int)
    requires a <= b && off(a) != off(b)
    ensures exists c :: a < c <= b && IsChange(off, c)
  {
    if Quiet(off, a, b) { QuietConstant(off, a, b); }
  }

  /** Around a change of a spaced zone the offset is constant for six hours on
      either side. */
  lemma {:induction false} AroundChange(off: Zone, c: int, t: int)
    requires Spaced(off) && IsChange(off, c) && c - STEP <= t < c + STEP
    ensures t < c ==> off(t) == off(c - 1)
    ensures c <= t ==> off(t) == off(c)
  {
    if t < c {
      forall d | t < d <= c - 1 ensures !IsChange(off, d) {}
      QuietConstant(off, t, c - 1);
    } else {
      forall d | c < d <= t ensures !IsChange(off, d) {}
      QuietConstant(off, c, t);
    }
  }

  // ----- binarySearchTransition -----

  lemma {:induction false} MulMonotone(a: int, b: int, p: nat)
    requires a <= b
    ensures a * p <= b * p
  {}

  lemma {:induction false} HalvingsBounded(width: int, halvings: nat)
    requires SECOND < width && (width - 1) * Pow2(halvings) <= STEP
    ensures halvings < 15
  {
    var p := Pow2(halvings);
    MulMonotone(SECOND, width - 1, p);
    assert p <= 6 * 3600;
    if halvings >= 15 {
      Pow2Values();
      if halvings > 15 { Pow2Doubles(15, halvings); }
    }
  }

  /** Narrows an interval to at most a second: the result has left the offset of
      the interval's start (or is its end) and `below` has not. */
  method BinarySearch(off: Zone, lo0: int, hi0: int) returns (at: int, ghost below: int, ghost halvings: nat)
    requires lo0 <= hi0 <= lo0 + STEP
    ensures lo0 <= below <= at <= hi0 && at - below <= SECOND
    ensures off(below) == off(lo0) && (at == hi0 || off(at) != off(lo0))
    ensures halvings <= 15
  {
    var lo, hi := lo0, hi0;
    var loOff := off(lo);
    halvings := 0;
    while hi - lo > SECOND
      invariant lo0 <= lo <= hi <= hi0 && off(lo) == loOff && (hi == hi0 || off(hi) != loOff)
      invariant hi > lo ==> (hi - lo - 1) * Pow2(halvings) <= STEP
      invariant halvings <= 15
      decreases hi - lo
    {
      HalvingsBounded(hi - lo, halvings);
      var mid := lo + (hi - lo) / 2;
      HalfWidth(hi - lo, mid - lo, Pow2(halvings));
      if off(mid) == loOff {
        lo := mid;
      } else {
        hi := mid;
      }
      halvings := halvings + 1;
    }
    at, below := hi, lo;
  }

  /** Either half of a width w is at most (w + 1) / 2. */
  lemma {:induction false} HalfWidth(w: int, half: int, scale: nat)
    requires w >= 2 && half == w / 2 && (w - 1) * scale <= STEP
    ensures (half - 1) * (2 * scale) <= STEP && (w - half - 1) * (2 * scale) <= STEP
  {
    assert 2 * (half - 1) <= w - 1 && 2 * (w - half - 1) <= w - 1;
    assert (2 * (half - 1)) * scale <= (w - 1) * scale;
    assert (2 * (w - half - 1)) * scale <= (w - 1) * scale;
  }

  /** Between samples that straddle one change, the search lands within the
      second that begins with it. */
  lemma {:induction false} SearchFinds(off: Zone, lo0: int, hi0: int, c: int, below: int, at: int)
    requires Spaced(off) && lo0 < c <= hi0 <= lo0 + STEP && IsChange(off, c)
    requires lo0 <= below <= at <= hi0 && at - below <= SECOND
    requires off(below) == off(lo0) && (at == hi0 || off(at) != off(lo0))
    ensures c <= at < c + SECOND && Truncated(at) == c
  {
    AroundChange(off, c, lo0);
    AroundChange(off, c, below);
    AroundChange(off, c, at);
    assert c % SECOND == 0;
    assert (at - c) % SECOND == at - c;
  }

  // ----- detectTransitions -----

  /** The list holds exactly the changes in (from, upto], ascending, each with the
      offsets on its two sides. */
  ghost predicate Lists(off: Zone, from: int, upto: int, out: seq<Transition>) {
    && (forall i :: 0 <= i < |out| ==> Entry(off, from, upto, out[i]))
    && (forall i, j :: 0 <= i < j < |out| ==> Truncated(out[i].at) < Truncated(out[j].at))
    && (forall c :: from < c <= upto && IsChange(off, c) ==> exists i :: 0 <= i < |out| && Truncated(out[i].at) == c)
  }

  ghost predicate Entry(off: Zone, from: int, upto: int, tr: Transition) {
    var c := Truncated(tr.at);
    from < c <= upto && IsChange(off, c) && tr.offsetFrom == off(c - 1) && tr.offsetTo == off(c)
  }

  /** One sampling step either sees no change or finds the only one. */
  lemma {:induction false} StepFinds(off: Zone, prev: int, t: int, at: int, below: int)
    requires Spaced(off) && t == prev + STEP && off(t) != off(prev)
    requires prev <= below <= at <= t && at - below <= SECOND
    requires off(below) == off(prev) && (at == t || off(at) != off(prev))
    ensures var c := Truncated(at);
      && prev < c <= t && IsChange(off, c) && off(at - SECOND) == off(c - 1) && off(at) == off(c)
      && forall d :: prev < d <= t && IsChange(off, d) ==> d == c
  {
    ChangeExists(off, prev, t);
    var c :| prev < c <= t && IsChange(off, c);
    SearchFinds(off, prev, t, c, below, at);
    AroundChange(off, c, at);
    AroundChange(off, c, at - SECOND);
  }

  lemma {:induction false} StepQuiet(off: Zone, prev: int, t: int)
    requires Spaced(off) && t == prev + STEP && off(t) == off(prev)
    ensures Quiet(off, prev, t)
  {
    forall c | prev < c <= t ensures !IsChange(off, c) {
      if IsChange(off, c) {
        AroundChange(off, c, prev);
        AroundChange(off, c, t);
      }
    }
  }

  /** The last instant that sampling looks at. */
  function LastSample(from: int, to: int): int {
    if to <= from then from else from + (to - 1 - from) / STEP * STEP
  }

  method DetectTransitions(off: Zone, from: int, to: int) returns (out: seq<Transition>)
    ensures Spaced(off) ==> Lists(off, from, LastSample(from, to), out)
  {
    out := [];
    var prev := from;
    var prevOff := off(prev);
    var t := from + STEP;
    ghost var k: nat := 0;
    while t < to
      invariant prev == from + k * STEP && t == prev + STEP && prevOff == off(prev)
      invariant k > 0 ==> prev < to
      invariant Spaced(off) ==> Lists(off, from, prev, out)
    {
      var offT := off(t);
      if offT != prevOff {
        var at, below, halvings := BinarySearch(off, prev, t);
        var tr := Transition(at, off(at - SECOND), off(at));
        if Spaced(off) {
          StepFinds(off, prev, t, at, below);
          ListsAppend(off, from, prev, t, out, tr);
        }
        out := out + [tr];
        prevOff := offT;
      } else if Spaced(off) {
        StepQuiet(off, prev, t);
      }
      prev := t;
      t := t + STEP;
      k := k + 1;
    }
    LastSampleIs(from, to, k);
  }

  lemma {:induction false} LastSampleIs(from: int, to: int, k: nat)
    requires (k > 0 ==> from + k * STEP < to) && from + k * STEP + STEP >= to
    ensures LastSample(from, to) == from + k * STEP
  {
    if to > from {
      assert k * STEP <= to - 1 - from < k * STEP + STEP;
      assert (to - 1 - from) / STEP == k;
    }
  }

  lemma {:induction false} ListsAppend(off: Zone, from: int, prev: int, t: int, out: seq<Transition>, tr: Transition)
    requires Lists(off, from, prev, out) && from <= prev <= t
    requires Entry(off, prev, t, tr)
    requires forall d :: prev < d <= t && IsChange(off, d) ==> d == Truncated(tr.at)
    ensures Lists(off, from, t, out + [tr])
  {
    var longer := out + [tr];
    forall c | from < c <= t && IsChange(off, c) ensures exists i :: 0 <= i < |longer| && Truncated(longer[i].at) == c {
      if c <= prev {
        var i :| 0 <= i < |out| && Truncated(out[i].at) == c;
        assert Truncated(longer[i].at) == c;
      } else {
        assert Truncated(longer[|out|].at) == c;
      }
    }
    forall i | 0 <= i < |longer| ensures Entry(off, from, t, longer[i]) {
      assert i < |out| ==> Entry(off, from, prev, out[i]);
    }
    forall i, j | 0 <= i < j < |longer| ensures Truncated(longer[i].at) < Truncated(longer[j].at) {
      assert Entry(off, from, prev, out[i]);
    }
  }

  // ----- The table is the zone -----

  /** What the list says the offset is: that of the last entry not after t. */
  function Lookup(out: seq<Transition>, base: int, t: int): int
    decreases |out|
  {
    if out == [] then base
    else
      var n := |out| - 1;
      if Truncated(out[n].at) <= t then out[n].offsetTo else Lookup(out[..n], base, t)
  }

  lemma {:induction false} ListsPrefix(off: Zone, from: int, upto: int, out: seq<Transition>)
    requires Lists(off, from, upto, out) && out != []
    ensures var n := |out| - 1; Lists(off, from, Truncated(out[n].at) - 1, out[..n])
  {
    var n := |out| - 1;
    var init, last := out[..n], Truncated(out[n].at);
    forall i | 0 <= i < |init| ensures Entry(off, from, last - 1, init[i]) {
      assert init[i] == out[i] && Entry(off, from, upto, out[i]) && Truncated(out[i].at) < last;
    }
    assert Entry(off, from, upto, out[n]);
    forall c | from < c <= last - 1 && IsChange(off, c) ensures exists i :: 0 <= i < |init| && Truncated(init[i].at) == c {
      ListedBefore(off, from, upto, out, c);
    }
  }

  lemma {:induction false} ListedBefore(off: Zone, from: int, upto: int, out: seq<Transition>, c: int)
    requires Lists(off, from, upto, out) && out != [] && from < c < Truncated(out[|out| - 1].at) <= upto && IsChange(off, c)
    ensures var init := out[..|out| - 1]; exists i :: 0 <= i < |init| && Truncated(init[i].at) == c
  {
    var i :| 0 <= i < |out| && Truncated(out[i].at) == c;
    assert out[..|out| - 1][i] == out[i];
  }

  /** The table reconstructs the zone at every instant of the sampled range. */
  lemma {:induction false} TableIsZone(off: Zone, from: int, upto: int, out: seq<Transition>, t: int)
    requires Lists(off, from, upto, out) && from <= t <= upto
    ensures Lookup(out, off(from), t) == off(t)
    decreases |out|
  {
    if out == [] {
      forall c | from < c <= t ensures !IsChange(off, c) {}
      QuietConstant(off, from, t);
    } else {
      var n := |out| - 1;
      var last := Truncated(out[n].at);
      assert Entry(off, from, upto, out[n]);
      if last <= t {
        LastHolds(off, from, upto, out, t);
      } else {
        ListsPrefix(off, from, upto, out);
        TableIsZone(off, from, last - 1, out[..n], t);
      }
    }
  }

  lemma {:induction false} LastHolds(off: Zone, from: int, upto: int, out: seq<Transition>, t: int)
    requires Lists(off, from, upto, out) && out != [] && Truncated(out[|out| - 1].at) <= t <= upto
    ensures off(t) == out[|out| - 1].offsetTo
  {
    var n := |out| - 1;
    var last := Truncated(out[n].at);
    assert Entry(off, from, upto, out[n]);
    assert forall i :: 0 <= i < |out| ==> Truncated(out[i].at) <= last;
    forall c | last < c <= t ensures !IsChange(off, c) {}
    QuietConstant(off, last, t);
  }

  /** Consecutive entries chain, starting from the offset at the first sample. */
  lemma {:induction false} EntriesChain(off: Zone, from: int, upto: int, out: seq<Transition>, i: nat)
    requires Lists(off, from, upto, out) && i < |out|
    ensures out[i].offsetFrom == if i == 0 then off(from) else out[i - 1].offsetTo
  {
    var c := Truncated(out[i].at);
    assert Entry(off, from, upto, out[i]);
    var start := if i == 0 then from else Truncated(out[i - 1].at);
    if i > 0 { assert Entry(off, from, upto, out[i - 1]); }
    forall j | 0 <= j < |out| ensures Truncated(out[j].at) <= start || c <= Truncated(out[j].at) {
      if j < i - 1 { assert Truncated(out[j].at) < Truncated(out[i - 1].at); }
      if j > i { assert Truncated(out[i].at) < Truncated(out[j].at); }
    }
    forall d | start < d <= c - 1 ensures !IsChange(off, d) {}
    QuietConstant(off, start, c - 1);
  }

  // ----- The DTSTART of a zone rule -----

  /** subcomponent: a second back, into the old offset, a second forward, printed
      in whole seconds. */
  function RuleStart(tr: Transition): int {
    Truncated(tr.at - SECOND + tr.offsetFrom * SECOND + SECOND)
  }

  /** A rule starts at its change instant, read on a clock in the old offset. */
  lemma {:induction false} RuleStartIsChange(off: Zone, from: int, upto: int, tr: Transition)
    requires Entry(off, from, upto, tr)
    ensures var c := Truncated(tr.at); IsChange(off, c) && RuleStart(tr) == c + off(c - 1) * SECOND
  {
    assert (tr.at + tr.offsetFrom * SECOND) % SECOND == tr.at % SECOND;
  }
}
