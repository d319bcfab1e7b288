/**
  Run-length encoded digital signals and the waveform they denote: one level per unit of
  the reload value.  A list of periods is read with levels that alternate from a start level.
  On the pin every period lasts one timer tick more than its reload value; `Pin` and
  `Unmerged` are waveforms in timer ticks.
 */
module WaveModel {

  const T_TIM := 1562
  const T_TIM_DIV2 := 781

  datatype Signal = Signal(startLevel: bool, periods: seq<nat>, remainder: int)

  function Hold(level: bool, n: nat): (w: seq<bool>)
    ensures |w| == n
  {
    seq(n, _ => level)
  }

  function Wave(level: bool, periods: seq<nat>): seq<bool>
    decreases |periods|
  {
    if periods == [] then [] else Hold(level, periods[0]) + Wave(!level, periods[1..])
  }

  /** The level that follows n periods. */
  predicate LevelAfter(level: bool, n: nat) {
    level != (n % 2 == 1)
  }

  function Sum(periods: seq<nat>): nat {
    if periods == [] then 0 else periods[0] + Sum(periods[1..])
  }

  predicate Positive(periods: seq<nat>) {
    forall i :: 0 <= i < |periods| ==> periods[i] > 0
  }

  predicate Playable(s: Signal) {
    s.periods != [] && Positive(s.periods)
  }

  /** The level of the last period. */
  predicate EndLevel(s: Signal) {
    s.startLevel != (|s.periods| % 2 == 0)
  }

  // ------------------------------------------------------------- corrections

  /** Remainder and correction tick after a signal boundary. */
  function Corrected(remainder: int): (int, nat) {
    if remainder >= T_TIM_DIV2 then (remainder - T_TIM, 1) else (remainder, 0)
  }

  /** The remainder carried past the given boundaries, and the ticks issued. */
  function Carried(remainders: seq<int>): (int, nat) {
    if remainders == [] then (0, 0) else
    var (r, n) := Carried(remainders[..|remainders| - 1]);
    var (r', c) := Corrected(r + remainders[|remainders| - 1]);
    (r', n + c)
  }

  function Total(remainders: seq<int>): int {
    if remainders == [] then 0 else Total(remainders[..|remainders| - 1]) + remainders[|remainders| - 1]
  }

  /** No rounding error is lost: what is carried plus what was issued is what came in. */
  lemma {:induction false} CorrectionsConserve(remainders: seq<int>)
    ensures Carried(remainders).0 + T_TIM * Carried(remainders).1 == Total(remainders)
  {
    if remainders != [] {
      CorrectionsConserve(remainders[..|remainders| - 1]);
    }
  }

  predicate InBounds(r: int) {
    -T_TIM_DIV2 <= r < T_TIM_DIV2
  }

  predicate DrawnFrom(remainders: seq<int>, bank: set<int>) {
    forall i :: 0 <= i < |remainders| ==> remainders[i] in bank
  }

  lemma {:induction false} ErrorBounded(remainders: seq<int>)
    requires forall i :: 0 <= i < |remainders| ==> 0 <= remainders[i] <= T_TIM
    ensures InBounds(Carried(remainders).0)
  {
    if remainders != [] {
      ErrorBounded(remainders[..|remainders| - 1]);
    }
  }

  function Repeated(r: int, n: nat): seq<int> {
    seq(n, _ => r)
  }

  lemma RepeatedPush(r: int, n: nat)
    requires n > 0
    ensures Repeated(r, n)[..n - 1] == Repeated(r, n - 1) && Repeated(r, n)[n - 1] == r
  {
  }

  lemma {:induction false} NegativeDrifts(r: int, n: nat)
    requires r < 0
    ensures Carried(Repeated(r, n)).0 + n <= 0
  {
    if n > 0 {
      NegativeDrifts(r, n - 1);
      RepeatedPush(r, n);
    }
  }

  lemma {:induction false} LargeDrifts(r: int, n: nat)
    requires r > T_TIM
    ensures Carried(Repeated(r, n)).0 >= n
  {
    if n > 0 {
      LargeDrifts(r, n - 1);
      RepeatedPush(r, n);
    }
  }

  /** The accumulated error of every sequence stays within half a tick exactly when no signal of the bank
      has a negative remainder or one above a whole tick. */
  lemma ErrorBoundedIff(bank: set<int>)
    ensures (forall remainders :: DrawnFrom(remainders, bank) ==> InBounds(Carried(remainders).0))
      <==> (forall r :: r in bank ==> 0 <= r <= T_TIM)
  {
    if forall r :: r in bank ==> 0 <= r <= T_TIM {
      forall remainders | DrawnFrom(remainders, bank) ensures InBounds(Carried(remainders).0) {
        ErrorBounded(remainders);
      }
    } else {
      var r :| r in bank && !(0 <= r <= T_TIM);
      assert DrawnFrom(Repeated(r, 1000), bank);
      if r < 0 { NegativeDrifts(r, 1000); } else { LargeDrifts(r, 1000); }
    }
  }

  // ---------------------------------------------------------------- sequences

  /** The correction tick goes to the first period after the boundary. */
  function AddFirst(periods: seq<nat>, tick: nat): seq<nat>
    requires periods != []
  {
    [periods[0] + tick] + periods[1..]
  }

  /** The concatenated waveform of the signals, correction ticks included. */
  function Full(signals: seq<Signal>, remainder: int, tick: nat): seq<bool>
    requires forall i :: 0 <= i < |signals| ==> Playable(signals[i])
    decreases |signals|
  {
    if signals == [] then [] else
    var s := signals[0];
    assert Playable(s);
    var (r, c) := Corrected(remainder + s.remainder);
    Wave(s.startLevel, AddFirst(s.periods, tick)) + Full(signals[1..], r, c)
  }

  /** Boundaries between equal levels. */
  function Merges(signals: seq<Signal>): nat {
    if |signals| < 2 then 0 else
    (if EndLevel(signals[0]) == signals[1].startLevel then 1 else 0) + Merges(signals[1..])
  }

  function PeriodCount(signals: seq<Signal>): nat {
    if signals == [] then 0 else |signals[0].periods| + PeriodCount(signals[1..])
  }

  // ------------------------------------------------------------- wave lemmas

  lemma HoldConcat(level: bool, m: nat, n: nat)
    ensures Hold(level, m + n) == Hold(level, m) + Hold(level, n)
  {
  }

  lemma {:induction false} WavePush(level: bool, periods: seq<nat>, p: nat)
    ensures Wave(level, periods + [p]) == Wave(level, periods) + Hold(LevelAfter(level, |periods|), p)
    decreases |periods|
  {
    if periods == [] {
      assert ([] + [p])[1..] == [];
      assert Wave(level, [p]) == Hold(level, p) + [];
    } else {
      assert (periods + [p])[1..] == periods[1..] + [p];
      WavePush(!level, periods[1..], p);
      assert LevelAfter(!level, |periods| - 1) == LevelAfter(level, |periods|);
      assert Hold(level, periods[0]) + (Wave(!level, periods[1..]) + Hold(LevelAfter(level, |periods|), p))
        == Hold(level, periods[0]) + Wave(!level, periods[1..]) + Hold(LevelAfter(level, |periods|), p);
    }
  }

  lemma {:induction false} WaveLength(level: bool, periods: seq<nat>)
    ensures |Wave(level, periods)| == Sum(periods)
    decreases |periods|
  {
    if periods != [] { WaveLength(!level, periods[1..]); }
  }

  /** Positive periods can be read back from the waveform. */
  lemma {:induction false} WaveInjective(level: bool, a: seq<nat>, b: seq<nat>)
    requires Positive(a) && Positive(b) && Wave(level, a) == Wave(level, b)
    ensures a == b
    decreases |a|
  {
    WaveLength(level, a);
    WaveLength(level, b);
    if a == [] || b == [] {
    } else {
      FirstRun(level, a, b);
      FirstRun(level, b, a);
      var w := Wave(level, a);
      assert Wave(!level, a[1..]) == w[a[0]..] && Wave(!level, b[1..]) == w[b[0]..];
      WaveInjective(!level, a[1..], b[1..]);
      assert a == [a[0]] + a[1..] && b == [b[0]] + b[1..];
    }
  }

  lemma FirstRun(level: bool, a: seq<nat>, b: seq<nat>)
    requires Positive(a) && Positive(b) && a != [] && b != [] && Wave(level, a) == Wave(level, b)
    ensures a[0] <= b[0]
  {
    RunStarts(level, a);
    RunStarts(level, b);
  }

  /** The first period is the first run of equal levels. */
  lemma RunStarts(level: bool, a: seq<nat>)
    requires Positive(a) && a != []
    ensures a[0] <= |Wave(level, a)|
    ensures forall i :: 0 <= i < a[0] ==> Wave(level, a)[i] == level
    ensures |Wave(level, a)| > a[0] ==> Wave(level, a)[a[0]] == !level
  {
    if |a| > 1 {
      var t := Wave(!level, a[1..]);
      assert a[1..][0] == a[1] > 0;
      assert t == Hold(!level, a[1]) + Wave(level, a[1..][1..]);
      assert t[0] == !level;
    }
  }

  // ------------------------------------------------------------ on the pin

  /** The timer counts from 0 to the reload value: a period lasts one tick more. */
  function Longer(periods: seq<nat>): (r: seq<nat>)
    ensures |r| == |periods|
  {
    seq(|periods|, i requires 0 <= i < |periods| => periods[i] + 1)
  }

  /** The pin, tick by tick, when the periods are loaded one after the other. */
  function Pin(level: bool, periods: seq<nat>): seq<bool> {
    Wave(level, Longer(periods))
  }

  /** The pin when no boundary merges periods: every period of every signal is loaded by itself. */
  function Unmerged(signals: seq<Signal>, remainder: int, tick: nat): seq<bool>
    requires forall i :: 0 <= i < |signals| ==> Playable(signals[i])
    decreases |signals|
  {
    if signals == [] then [] else
    var s := signals[0];
    assert Playable(s);
    var (r, c) := Corrected(remainder + s.remainder);
    Pin(s.startLevel, AddFirst(s.periods, tick)) + Unmerged(signals[1..], r, c)
  }

  /** All periods of the signals in order, correction ticks included. */
  function Flat(signals: seq<Signal>, remainder: int, tick: nat): (periods: seq<nat>)
    requires forall i :: 0 <= i < |signals| ==> Playable(signals[i])
    ensures Positive(periods)
    decreases |signals|
  {
    if signals == [] then [] else
    var s := signals[0];
    assert Playable(s);
    var (r, c) := Corrected(remainder + s.remainder);
    AddFirst(s.periods, tick) + Flat(signals[1..], r, c)
  }

  lemma {:induction false} LongerSum(periods: seq<nat>)
    ensures Sum(Longer(periods)) == Sum(periods) + |periods|
  {
    if periods != [] {
      assert Longer(periods)[1..] == Longer(periods[1..]);
      LongerSum(periods[1..]);
    }
  }

  lemma PinLength(level: bool, periods: seq<nat>)
    ensures |Pin(level, periods)| == |Wave(level, periods)| + |periods|
  {
    WaveLength(level, periods);
    WaveLength(level, Longer(periods));
    LongerSum(periods);
  }

  lemma {:induction false} UnmergedLength(ss: seq<Signal>, remainder: int, tick: nat)
    requires forall i :: 0 <= i < |ss| ==> Playable(ss[i])
    ensures |Unmerged(ss, remainder, tick)| == |Full(ss, remainder, tick)| + PeriodCount(ss)
    decreases |ss|
  {
    hide Wave, Pin;
    if ss != [] {
      assert Playable(ss[0]);
      var (r, c) := Corrected(remainder + ss[0].remainder);
      PinLength(ss[0].startLevel, AddFirst(ss[0].periods, tick));
      UnmergedLength(ss[1..], r, c);
    }
  }

  lemma {:induction false} WaveConcat(level: bool, a: seq<nat>, b: seq<nat>)
    ensures Wave(level, a + b) == Wave(level, a) + Wave(LevelAfter(level, |a|), b)
    decreases |a|
  {
    if a == [] {
      assert a + b == b;
    } else {
      assert (a + b)[1..] == a[1..] + b;
      WaveConcat(!level, a[1..], b);
      assert LevelAfter(!level, |a| - 1) == LevelAfter(level, |a|);
      var first, rest := Hold(level, a[0]), Wave(!level, a[1..]);
      var after := Wave(LevelAfter(level, |a|), b);
      assert first + (rest + after) == first + rest + after;
    }
  }

  lemma LongerConcat(a: seq<nat>, b: seq<nat>)
    ensures Longer(a + b) == Longer(a) + Longer(b)
  {
  }

  /** Without merged boundaries the periods of the signals follow each other with alternating levels. */
  lemma {:induction false} NoMerges(ss: seq<Signal>, remainder: int, tick: nat)
    requires ss != [] && (forall i :: 0 <= i < |ss| ==> Playable(ss[i])) && Merges(ss) == 0
    ensures Full(ss, remainder, tick) == Wave(ss[0].startLevel, Flat(ss, remainder, tick))
    ensures Unmerged(ss, remainder, tick) == Pin(ss[0].startLevel, Flat(ss, remainder, tick))
    decreases |ss|
  {
    hide Wave, Positive;
    var s, rest := ss[0], ss[1..];
    assert Playable(s);
    var (r, c) := Corrected(remainder + s.remainder);
    var ps, after := AddFirst(s.periods, tick), Flat(rest, r, c);
    if rest == [] {
      assert ps + after == ps;
      assert Full(rest, r, c) == [] && Unmerged(rest, r, c) == [];
    } else {
      NoMerges(rest, r, c);
      assert LevelAfter(s.startLevel, |ps|) == rest[0].startLevel;
      WaveConcat(s.startLevel, ps, after);
      LongerConcat(ps, after);
      WaveConcat(s.startLevel, Longer(ps), Longer(after));
    }
  }

  /**
    Every merged boundary costs the pin one tick: the transmission of `sent` is shorter by exactly
    the number of merges, and it is the unmerged one exactly when nothing merges.
   */
  lemma PinExactIff(ss: seq<Signal>, sent: seq<nat>)
    requires ss != [] && (forall i :: 0 <= i < |ss| ==> Playable(ss[i])) && Positive(sent)
    requires Wave(ss[0].startLevel, sent) == Full(ss, 0, 0) && |sent| + Merges(ss) == PeriodCount(ss)
    ensures |Unmerged(ss, 0, 0)| == |Pin(ss[0].startLevel, sent)| + Merges(ss)
    ensures Pin(ss[0].startLevel, sent) == Unmerged(ss, 0, 0) <==> Merges(ss) == 0
  {
    hide Wave, Full, Pin, Unmerged, Merges, PeriodCount;
    PinLength(ss[0].startLevel, sent);
    UnmergedLength(ss, 0, 0);
    if Merges(ss) == 0 {
      NoMerges(ss, 0, 0);
      WaveInjective(ss[0].startLevel, sent, Flat(ss, 0, 0));
    }
  }

  // ------------------------------------------------------------- durations

  /** What a signal was built to last, in 10 ps: its ticks on the pin and its remainder. */
  function Asked(s: Signal): int {
    T_TIM * (Sum(s.periods) + |s.periods|) + s.remainder
  }

  function AskedAll(ss: seq<Signal>): int {
    if ss == [] then 0 else Asked(ss[0]) + AskedAll(ss[1..])
  }

  function Remainders(ss: seq<Signal>): (rs: seq<int>)
    ensures |rs| == |ss|
  {
    seq(|ss|, i requires 0 <= i < |ss| => ss[i].remainder)
  }

  /** The remainder carried past the given boundaries, from a remainder on. */
  function CarriedOn(r: int, remainders: seq<int>): int
    decreases |remainders|
  {
    if remainders == [] then r else CarriedOn(Corrected(r + remainders[0]).0, remainders[1..])
  }

  lemma {:induction false} CarriedOnPush(r: int, rs: seq<int>, x: int)
    ensures CarriedOn(r, rs + [x]) == Corrected(CarriedOn(r, rs) + x).0
    decreases |rs|
  {
    if rs == [] {
      assert ([] + [x])[1..] == [];
    } else {
      assert (rs + [x])[1..] == rs[1..] + [x];
      CarriedOnPush(Corrected(r + rs[0]).0, rs[1..], x);
    }
  }

  lemma {:induction false} CarriedOnIsCarried(rs: seq<int>)
    ensures CarriedOn(0, rs) == Carried(rs).0
  {
    if rs != [] {
      var n := |rs| - 1;
      CarriedOnIsCarried(rs[..n]);
      assert rs == rs[..n] + [rs[n]];
      CarriedOnPush(0, rs[..n], rs[n]);
    }
  }

  /** Ticks, the remainder carried to the last signal and its own one make up what was asked for. */
  lemma {:induction false} UnmergedLasts(ss: seq<Signal>, remainder: int, tick: nat)
    requires ss != [] && forall i :: 0 <= i < |ss| ==> Playable(ss[i])
    ensures T_TIM * |Unmerged(ss, remainder, tick)|
        + CarriedOn(remainder, Remainders(ss[..|ss| - 1])) + ss[|ss| - 1].remainder
      == AskedAll(ss) + remainder + T_TIM * tick
    decreases |ss|
  {
    hide Pin, Wave;
    var s := ss[0];
    assert Playable(s);
    var (r, c) := Corrected(remainder + s.remainder);
    PinLasts(s.startLevel, s.periods, tick);
    if |ss| == 1 {
      assert Remainders(ss[..0]) == [] && AskedAll(ss[1..]) == 0 && Unmerged(ss[1..], r, c) == [];
    } else {
      UnmergedLasts(ss[1..], r, c);
      assert ss[1..][..|ss| - 2] == ss[..|ss| - 1][1..];
      assert Remainders(ss[..|ss| - 1])[1..] == Remainders(ss[..|ss| - 1][1..]);
      assert Remainders(ss[..|ss| - 1])[0] == s.remainder;
    }
  }

  lemma PinLasts(level: bool, periods: seq<nat>, tick: nat)
    requires periods != []
    ensures |Pin(level, AddFirst(periods, tick))| == Sum(periods) + |periods| + tick
  {
    PinLength(level, AddFirst(periods, tick));
    WaveLength(level, AddFirst(periods, tick));
    assert AddFirst(periods, tick)[1..] == periods[1..];
  }

  /**
    How long a transmission takes: what its signals were built to last, but for one tick for every
    merge, the remainder of the last signal and the rounding error carried to it, which stays within
    half a tick when no remainder is negative or above a whole one.
   */
  lemma TransmissionLasts(ss: seq<Signal>, sent: seq<nat>)
    requires ss != [] && (forall i :: 0 <= i < |ss| ==> Playable(ss[i])) && Positive(sent)
    requires Wave(ss[0].startLevel, sent) == Full(ss, 0, 0) && |sent| + Merges(ss) == PeriodCount(ss)
    ensures var last := |ss| - 1;
      T_TIM * (|Pin(ss[0].startLevel, sent)| + Merges(ss))
        + Carried(Remainders(ss[..last])).0 + ss[last].remainder == AskedAll(ss)
    ensures (forall i :: 0 <= i < |ss| ==> 0 <= ss[i].remainder <= T_TIM) ==>
      InBounds(Carried(Remainders(ss[..|ss| - 1])).0)
  {
    hide Wave, Full, Pin, Unmerged, Merges, PeriodCount;
    PinExactIff(ss, sent);
    UnmergedLasts(ss, 0, 0);
    CarriedOnIsCarried(Remainders(ss[..|ss| - 1]));
    if forall i :: 0 <= i < |ss| ==> 0 <= ss[i].remainder <= T_TIM {
      ErrorBounded(Remainders(ss[..|ss| - 1]));
    }
  }

  /** Two signals of one unit each at the same level: four ticks become three. */
  lemma MergeLosesATick()
    ensures var ss := [Signal(true, [1], 0), Signal(true, [1], 0)];
      && (forall i :: 0 <= i < |ss| ==> Playable(ss[i])) && Merges(ss) == 1
      && Wave(true, [2]) == Full(ss, 0, 0) && |[2 as nat]| + Merges(ss) == PeriodCount(ss)
      && |Pin(true, [2])| == 3 && |Unmerged(ss, 0, 0)| == 4
  {
    var s := Signal(true, [1], 0);
    var ss := [s, s];
    assert Playable(s) && ss[1..] == [s] && [s][1..] == [];
    assert Full([s], 0, 0) == Wave(true, [1]) + [] && PeriodCount([s]) == 1;
    assert Full(ss, 0, 0) == Wave(true, [1]) + Full([s], 0, 0);
    assert Wave(true, [1]) == Hold(true, 1) + [] && Wave(true, [2]) == Hold(true, 2) + [];
    HoldConcat(true, 1, 1);
    PinExactIff(ss, [2]);
    PinLength(true, [2]);
  }
}
