/** The advertised player count, which wanders inside a range and is moved on only when it is read. */
module Drift {
  import opened GoStrings
  import opened GoTime

  const DEFAULT_INTERVAL := 30 * SECOND
  const MOST_MOVES := 8

  /** The settings the count depends on; drift is None when fake_player_drift is missing. */
  datatype Config = Config(drift: Option<Range>, maxPlayers: int, fakePlayerCount: int, updateIntervalSeconds: int)
  datatype Range = Range(min: int, max: int, maxStep: int)

  function Min(a: int, b: int): (m: int)
    ensures m <= a && m <= b && (m == a || m == b)
  {
    if a < b then a else b
  }

  function Max(a: int, b: int): (m: int)
    ensures m >= a && m >= b && (m == a || m == b)
  {
    if a > b then a else b
  }

  /** What a drift keeps for good. */
  datatype Bounds = Bounds(min: int, max: int, maxStep: int, interval: int)

  predicate Sane(b: Bounds) {
    1 <= b.min <= b.max && 1 <= b.maxStep && 0 < b.interval
  }

  /** The count, the moment of its last move, and how many random moves have been drawn. */
  datatype State = State(value: int, last: int, drawn: nat)

  /** Go's division, which rounds toward zero. */
  function Quotient(a: int, d: int): (q: int)
    requires d > 0
    ensures if a >= 0 then q * d <= a < q * d + d else q * d - d < a <= q * d
  {
    if a >= 0 then a / d else -(-a / d)
  }

  function Clamped(b: Bounds, v: int): (c: int)
    ensures b.min <= v <= b.max ==> c == v
    ensures b.min <= b.max ==> (v > b.max ==> c == b.max) && (v < b.min ==> c == b.min)
  {
    Min(Max(v, b.min), b.max)
  }

  /** The count after n moves, the first of them move(from). */
  function Walk(b: Bounds, move: nat -> int, value: int, from: nat, n: nat): int {
    if n == 0 then value else Clamped(b, Walk(b, move, value, from, n - 1) + move(from + n - 1))
  }

  /** One reading at time now. */
  function Read(b: Bounds, move: nat -> int, s: State, now: int): State
    requires Sane(b)
  {
    var moves := Quotient(now - s.last, b.interval);
    if moves <= 0 then s
    else
      var n := Min(moves, MOST_MOVES);
      State(Walk(b, move, s.value, s.drawn, n), s.last + moves * b.interval, s.drawn + n)
  }

  class PlayerCountDrift {
    const bounds: Bounds
    const move: nat -> int // the random source, move by move
    var value: int
    var last: int
    var drawn: nat

    predicate Valid()
      reads this
    {
      Sane(bounds) && bounds.min <= value <= bounds.max
    }

    function Now(): State
      reads this
    {
      State(value, last, drawn)
    }

    constructor (bounds: Bounds, move: nat -> int, value: int, last: int)
      requires Sane(bounds) && bounds.min <= value <= bounds.max
      ensures Valid() && this.bounds == bounds && this.move == move && Now() == State(value, last, 0)
    {
      this.bounds, this.move, this.value, this.last, drawn := bounds, move, value, last, 0;
    }

    method Current(now: int) returns (count: int)
      requires Valid()
      modifies this
      ensures Valid() && Now() == Read(bounds, move, old(Now()), now) && count == value
      ensures old(drawn) <= drawn <= old(drawn) + 8
    {
      var elapsed := now - last;
      var moves := Quotient(elapsed, bounds.interval);
      if moves <= 0 {
        return value;
      }
      last := last + moves * bounds.interval;
      moves := Min(moves, MOST_MOVES);
      for i := 0 to moves
        invariant Valid() && last == old(last) + Quotient(elapsed, bounds.interval) * bounds.interval
        invariant drawn == old(drawn) + i && value == Walk(bounds, move, old(value), old(drawn), i)
      {
        value := Min(Max(value + move(drawn), bounds.min), bounds.max);
        drawn := drawn + 1;
      }
      return value;
    }
  }

  /** newPlayerCountDrift: the range is made a range above zero and below max_players, and the count starts
      inside it, at fake_player_count if that is set. */
  method NewPlayerCountDrift(cfg: Config, now: int, move: nat -> int) returns (d: PlayerCountDrift?)
    ensures d == null <==> cfg.drift.None? || cfg.drift.value.max <= 0
    ensures d != null ==> fresh(d) && d.Valid() && d.last == now && d.drawn == 0 && d.move == move
    ensures d != null ==>
      d.bounds.max == (if cfg.maxPlayers > 1 then Min(cfg.drift.value.max, cfg.maxPlayers - 1) else cfg.drift.value.max)
    ensures d != null ==> d.bounds.min == Min(Max(cfg.drift.value.min, 1), d.bounds.max)
    ensures d != null && cfg.maxPlayers > 1 ==> d.bounds.max < cfg.maxPlayers
    ensures d != null ==> d.bounds.maxStep == Max(cfg.drift.value.maxStep, 1)
    ensures d != null && cfg.updateIntervalSeconds > 0 ==>
      d.bounds.interval == cfg.updateIntervalSeconds * 1_000_000_000
    ensures d != null && cfg.updateIntervalSeconds <= 0 ==> d.bounds.interval == 30_000_000_000
    ensures d != null && cfg.fakePlayerCount > 0 ==> d.value == Clamped(d.bounds, cfg.fakePlayerCount)
    ensures d != null && cfg.fakePlayerCount <= 0 ==> d.value == (d.bounds.min + d.bounds.max) / 2
  {
    if cfg.drift.None? || cfg.drift.value.max <= 0 {
      return null;
    }
    var lo, hi := cfg.drift.value.min, cfg.drift.value.max;
    if lo < 1 {
      lo := 1;
    }
    if cfg.maxPlayers > 1 && hi > cfg.maxPlayers - 1 {
      hi := cfg.maxPlayers - 1;
    }
    if lo > hi {
      lo := hi;
    }
    var step := cfg.drift.value.maxStep;
    if step < 1 {
      step := 1;
    }
    var interval := cfg.updateIntervalSeconds * SECOND;
    if interval <= 0 {
      interval := DEFAULT_INTERVAL;
    }
    var start := (lo + hi) / 2;
    if cfg.fakePlayerCount > 0 {
      start := Min(Max(cfg.fakePlayerCount, lo), hi);
    }
    d := new PlayerCountDrift(Bounds(lo, hi, step, interval), move, start, now);
  }

  // ---------------------------------------------------------------------------------------------
  // Any number of readings

  /** The state after the first n readings. */
  function After(b: Bounds, move: nat -> int, s: State, times: seq<int>, n: nat): State
    requires Sane(b) && n <= |times|
  {
    if n == 0 then s else Read(b, move, After(b, move, s, times, n - 1), times[n - 1])
  }

  /** The clock never goes back, from start on. */
  predicate Ordered(times: seq<int>, start: int) {
    (times != [] ==> start <= times[0]) && forall i :: 0 < i < |times| ==> times[i - 1] <= times[i]
  }

  /** Whole intervals from start to the n-th reading. */
  function Intervals(b: Bounds, times: seq<int>, start: int, n: nat): int
    requires Sane(b) && n <= |times|
  {
    if n == 0 then 0 else (times[n - 1] - start) / b.interval
  }

  /** What the readings draw: at most eight moves each, one for every interval since the one before. */
  function Draws(b: Bounds, times: seq<int>, start: int, n: nat): int
    requires Sane(b) && n <= |times|
  {
    if n == 0 then 0
    else
      Draws(b, times, start, n - 1)
      + Min(MOST_MOVES, Intervals(b, times, start, n) - Intervals(b, times, start, n - 1))
  }

  lemma AtLeastOne(k: int, d: int)
    requires k >= 1 && d > 0
    ensures k * d >= d
  {
    assert k * d == (k - 1) * d + d;
    assert (k - 1) * d >= 0;
  }

  /** q and r with a == q * d + r are the quotient and the remainder. */
  lemma QuotientIs(a: int, d: int, q: int, r: int)
    requires d > 0 && a == q * d + r && 0 <= r < d
    ensures a / d == q
  {
    var p, s := a / d, a % d;
    assert a == p * d + s;
    assert (p - q) * d == r - s;
    if p > q {
      AtLeastOne(p - q, d);
    } else if p < q {
      assert (q - p) * d == s - r;
      AtLeastOne(q - p, d);
    }
  }

  lemma IntervalsGrow(b: Bounds, a: int, c: int)
    requires Sane(b) && 0 <= a <= c
    ensures 0 <= a / b.interval <= c / b.interval
  {
    var d := b.interval;
    var p, q := a / d, c / d;
    assert a == p * d + a % d && c == q * d + c % d;
    if p > q {
      assert (p - q) * d == a - c + c % d - a % d;
      AtLeastOne(p - q, d);
    }
  }

  /** A reading that starts from a whole number of intervals k ends on the whole number of its own time. */
  lemma OneReading(b: Bounds, start: int, k: int, now: int)
    requires Sane(b) && 0 <= k * b.interval <= now - start
    ensures (now - (start + k * b.interval)) / b.interval == (now - start) / b.interval - k
  {
    var d := b.interval;
    var q, r := (now - start) / d, (now - start) % d;
    assert now - start == q * d + r;
    assert now - (start + k * d) == (q - k) * d + r;
    QuotientIs(now - (start + k * d), d, q - k, r);
  }

  lemma {:induction false} WalkStaysInside(b: Bounds, move: nat -> int, value: int, from: nat, n: nat)
    requires Sane(b) && b.min <= value <= b.max
    ensures b.min <= Walk(b, move, value, from, n) <= b.max
  {
    if n > 0 { WalkStaysInside(b, move, value, from, n - 1); }
  }

  lemma {:induction false} WalkOn(b: Bounds, move: nat -> int, value: int, from: nat, m: nat, n: nat)
    ensures Walk(b, move, value, from, m + n) == Walk(b, move, Walk(b, move, value, from, m), from + m, n)
  {
    if n > 0 {
      WalkOn(b, move, value, from, m, n - 1);
      assert from + (m + n) - 1 == (from + m) + n - 1;
    }
  }

  /** The first n moves from the given one on, together. */
  function Sum(move: nat -> int, from: nat, n: nat): int
    decreases n
  {
    if n == 0 then 0 else move(from) + Sum(move, from + 1, n - 1)
  }

  lemma {:induction false} SumSnoc(move: nat -> int, from: nat, n: nat)
    ensures Sum(move, from, n + 1) == Sum(move, from, n) + move(from + n)
    decreases n
  {
    if n > 0 {
      SumSnoc(move, from + 1, n - 1);
      assert from + 1 + (n - 1) == from + n;
    }
  }

  /** n moves from the value on stay inside the range. */
  predicate Inside(b: Bounds, move: nat -> int, value: int, from: nat, n: nat) {
    forall i: nat :: i <= n ==> b.min <= value + Sum(move, from, i) <= b.max
  }

  /** As long as the moves stay inside the range, the count is the start and all of them; a move that would leave it
      ends where it does. */
  lemma {:induction false} WalkIsMoves(b: Bounds, move: nat -> int, value: int, from: nat, n: nat)
    requires Sane(b) && Inside(b, move, value, from, n)
    ensures Walk(b, move, value, from, n) == value + Sum(move, from, n)
    ensures var v := value + Sum(move, from, n) + move(from + n);
      Walk(b, move, value, from, n + 1) == if v > b.max then b.max else if v < b.min then b.min else v
  {
    if n > 0 {
      assert Inside(b, move, value, from, n - 1);
      WalkIsMoves(b, move, value, from, n - 1);
      SumSnoc(move, from, n - 1);
    }
    assert b.min <= value + Sum(move, from, n) <= b.max;
    SumSnoc(move, from, n);
  }

  /** Between two readings the count moves by no more than the largest step times the moves made. */
  lemma {:induction false} WalkIsSlow(b: Bounds, move: nat -> int, value: int, from: nat, n: nat)
    requires Sane(b) && b.min <= value <= b.max && forall i: nat :: -b.maxStep <= move(i) <= b.maxStep
    ensures value - n * b.maxStep <= Walk(b, move, value, from, n) <= value + n * b.maxStep
  {
    if n > 0 {
      WalkIsSlow(b, move, value, from, n - 1);
      WalkStaysInside(b, move, value, from, n - 1);
      assert -b.maxStep <= move(from + n - 1) <= b.maxStep;
      assert n * b.maxStep == (n - 1) * b.maxStep + b.maxStep;
    }
  }

  /** However often it is read: the count stays in its range, is the start value moved by exactly the moves
      drawn, the last move is at the latest whole interval since the start, and each reading draws one
      move for every interval since the one before, but no more than eight. */
  lemma {:induction false} ReadingsKeepTime(b: Bounds, move: nat -> int, s: State, times: seq<int>, n: nat)
    requires Sane(b) && b.min <= s.value <= b.max && s.drawn == 0 && Ordered(times, s.last) && n <= |times|
    ensures var r, k := After(b, move, s, times, n), Intervals(b, times, s.last, n);
      && b.min <= r.value <= b.max
      && 0 <= k && r.last == s.last + k * b.interval
      && (n > 0 ==> r.last <= times[n - 1] < r.last + b.interval)
      && r.drawn == Draws(b, times, s.last, n)
      && r.value == Walk(b, move, s.value, 0, r.drawn)
  {
    if n > 0 {
      ReadingsKeepTime(b, move, s, times, n - 1);
      OneMoreReading(b, move, s, times, n);
    }
  }

  /** And as long as the moves drawn stay inside the range, the count is the start and all of them. */
  lemma ReadingsAddMoves(b: Bounds, move: nat -> int, s: State, times: seq<int>, n: nat)
    requires Sane(b) && s.drawn == 0 && Ordered(times, s.last) && n <= |times|
    requires Inside(b, move, s.value, 0, After(b, move, s, times, n).drawn)
    ensures var r := After(b, move, s, times, n); r.value == s.value + Sum(move, 0, r.drawn)
  {
    var drawn := After(b, move, s, times, n).drawn;
    assert Sum(move, 0, 0) == 0 && b.min <= s.value + Sum(move, 0, 0) <= b.max;
    WalkIsMoves(b, move, s.value, 0, drawn);
    ReadingsKeepTime(b, move, s, times, n);
  }

  lemma OneMoreReading(b: Bounds, move: nat -> int, s: State, times: seq<int>, n: nat)
    requires Sane(b) && b.min <= s.value <= b.max && s.drawn == 0 && Ordered(times, s.last) && 0 < n <= |times|
    requires var r, k := After(b, move, s, times, n - 1), Intervals(b, times, s.last, n - 1);
      && 0 <= k && r.last == s.last + k * b.interval
      && (n > 1 ==> r.last <= times[n - 2])
      && r.drawn == Draws(b, times, s.last, n - 1)
      && r.value == Walk(b, move, s.value, 0, r.drawn)
    ensures var r, k := After(b, move, s, times, n), Intervals(b, times, s.last, n);
      && b.min <= r.value <= b.max
      && 0 <= k && r.last == s.last + k * b.interval
      && r.last <= times[n - 1] < r.last + b.interval
      && r.drawn == Draws(b, times, s.last, n)
      && r.value == Walk(b, move, s.value, 0, r.drawn)
  {
    hide Read, Walk;
    var r, j, now := After(b, move, s, times, n - 1), Intervals(b, times, s.last, n - 1), times[n - 1];
    if n == 1 {
      assert r == s && j == 0 && 0 * b.interval == 0;
    } else {
      assert times[n - 2] <= times[n - 1];
    }
    OneRead(b, move, r, s.last, j, now);
    var m := Min(MOST_MOVES, Intervals(b, times, s.last, n) - j);
    WalkOn(b, move, s.value, 0, r.drawn, m);
    WalkStaysInside(b, move, s.value, 0, r.drawn + m);
  }

  lemma OneRead(b: Bounds, move: nat -> int, r: State, start: int, j: int, now: int)
    requires Sane(b) && 0 <= j && r.last == start + j * b.interval && r.last <= now
    ensures var k, t := (now - start) / b.interval, Read(b, move, r, now);
      && j <= k && t.last == start + k * b.interval && t.last <= now < t.last + b.interval
      && t.drawn == r.drawn + Min(MOST_MOVES, k - j)
      && t.value == Walk(b, move, r.value, r.drawn, Min(MOST_MOVES, k - j))
  {
    var d := b.interval;
    var k := (now - start) / d;
    assert 0 <= j * d;
    OneReading(b, start, j, now);
    IntervalsGrow(b, 0, now - r.last);
    assert now - start == k * d + (now - start) % d;
    assert start + j * d + (k - j) * d == start + k * d;
  }

  /** No reading is more than eight intervals after the one before. */
  predicate ReadOften(b: Bounds, times: seq<int>, start: int, n: nat)
    requires Sane(b) && n <= |times|
  {
    forall i :: 0 < i <= n ==> Intervals(b, times, start, i) - Intervals(b, times, start, i - 1) <= MOST_MOVES
  }

  lemma {:induction false} DrawsAreIntervals(b: Bounds, times: seq<int>, start: int, n: nat)
    requires Sane(b) && n <= |times|
    ensures Draws(b, times, start, n) <= Intervals(b, times, start, n)
    ensures Draws(b, times, start, n) == Intervals(b, times, start, n) <==>
      forall i :: 0 < i <= n ==> Intervals(b, times, start, i) - Intervals(b, times, start, i - 1) <= 8
  {
    if n > 0 { DrawsAreIntervals(b, times, start, n - 1); }
  }

  /** Any number of readers: as long as none of the gaps is longer than eight intervals, the state at a
      given moment does not depend on when and how often the count was read before. */
  lemma ReadersDoNotMatter(b: Bounds, move: nat -> int, s: State, times: seq<int>, others: seq<int>)
    requires Sane(b) && b.min <= s.value <= b.max && s.drawn == 0 && Ordered(times, s.last) && Ordered(others, s.last)
    requires times != [] && others != [] && times[|times| - 1] == others[|others| - 1]
    requires ReadOften(b, times, s.last, |times|) && ReadOften(b, others, s.last, |others|)
    ensures After(b, move, s, times, |times|) == After(b, move, s, others, |others|)
  {
    ReadingsKeepTime(b, move, s, times, |times|);
    ReadingsKeepTime(b, move, s, others, |others|);
    DrawsAreIntervals(b, times, s.last, |times|);
    DrawsAreIntervals(b, others, s.last, |others|);
  }
}
