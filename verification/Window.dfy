/** A fixed-window counter: the rule behind both the per-feature rate limit (PoolKey.TryRate)
    and the usage cap (PoolKey.TryConsumeUsage), and what the rule guarantees over whole runs. */
module Window {
  import opened Common

  datatype Counter = Counter(count: int, start: Option<Instant>)

  /** What one call to a gate did. */
  datatype Hit = Hit(after: Counter, ok: bool, reset: bool)

  /** A window rolls over when it never started or has run its full width; without a width it never does. */
  predicate Elapsed(c: Counter, width: Option<int>, now: Instant) {
    width.Some? && (c.start.None? || now - c.start.value >= width.value)
  }

  function TryHit(c: Counter, limit: int, width: Option<int>, now: Instant): Hit {
    var reset := Elapsed(c, width, now);
    var rolled := if reset then Counter(0, Some(now)) else c;
    if rolled.count >= limit then Hit(rolled, false, reset)
    else Hit(rolled.(count := rolled.count + 1), true, reset)
  }

  /** How much of the limit the window holds at `now`. */
  function Used(c: Counter, width: Option<int>, now: Instant): int {
    if Elapsed(c, width, now) then 0 else c.count
  }

  /** One admitted call: when, and in the window started when. */
  datatype Mark = Mark(at: Instant, start: Instant)

  /** What a counter of fixed limit and width keeps about the calls it has admitted so far. */
  ghost predicate Logged(c: Counter, log: seq<Mark>, limit: int, width: int, clock: Instant) {
    && width > 0 && c.count >= 0
    && (c.start.None? || limit < 1 ==> log == [])
    && (c.start.Some? ==> c.start.value <= clock && UpToWindow(c, log, width, clock))
    && Ordered(log, width)
    && Spaced(log, limit, width)
  }

  /** Each call lies in its window, in the open one or an earlier one; only the last `count` can share the open one. */
  ghost predicate UpToWindow(c: Counter, log: seq<Mark>, width: int, clock: Instant)
    requires c.start.Some?
  {
    forall i :: 0 <= i < |log| ==>
      && log[i].start <= log[i].at < log[i].start + width && log[i].at <= clock
      && SameOrLater(log[i].start, c.start.value, width)
      && (i < |log| - c.count ==> log[i].start + width <= c.start.value)
  }

  ghost predicate Ordered(log: seq<Mark>, width: int) {
    forall i, j :: 0 <= i < j < |log| ==>
      log[i].at <= log[j].at && SameOrLater(log[i].start, log[j].start, width)
  }

  /** Two window starts are the same or at least a width apart. */
  predicate SameOrLater(a: Instant, b: Instant, width: int) {
    a == b || a + width <= b
  }

  /** No window holds more than `limit` calls: the call `limit` places on is in a later window. */
  ghost predicate Spaced(log: seq<Mark>, limit: int, width: int) {
    forall i, j :: 0 <= i < j < |log| && j - i == limit ==> log[i].start + width <= log[j].start
  }

  lemma AdmitKeepsLog(c: Counter, log: seq<Mark>, limit: int, width: int, now: Instant)
    requires c.start.Some? && Logged(c, log, limit, width, now)
    requires now - c.start.value < width && c.count < limit
    ensures Logged(c.(count := c.count + 1), log + [Mark(now, c.start.value)], limit, width, now)
  {
    var log' := log + [Mark(now, c.start.value)];
    assert Ordered(log', width);
    forall i, j | 0 <= i < j < |log'| && j - i == limit
      ensures log'[i].start + width <= log'[j].start
    {
      if j == |log| {
        assert i < |log| - c.count;
      } else {
        assert log'[i] == log[i] && log'[j] == log[j];
      }
    }
  }

  /** One call, admitted or refused, keeps the log's promises. */
  lemma HitKeepsLog(c: Counter, log: seq<Mark>, limit: int, width: int, clock: Instant, now: Instant)
    requires Logged(c, log, limit, width, clock) && clock <= now
    ensures var hit := TryHit(c, limit, Some(width), now);
            hit.after.start.Some?
            && Logged(hit.after, if hit.ok then log + [Mark(now, hit.after.start.value)] else log, limit, width, now)
            && Logged(hit.after, log, limit, width, now)
  {
    var rolled := if Elapsed(c, Some(width), now) then Counter(0, Some(now)) else c;
    assert Logged(rolled, log, limit, width, now);
    if rolled.count < limit {
      AdmitKeepsLog(rolled, log, limit, width, now);
    }
  }

  // ----- No window over its limit -----

  /** The calls admitted in the window started at `w`. */
  function CallsOf(log: seq<Mark>, w: Instant): nat {
    if log == [] then 0 else CallsOf(log[..|log| - 1], w) + (if log[|log| - 1].start == w then 1 else 0)
  }

  /** What the window started at `w` already held when the counter was `first`. */
  function HeldAtFirst(first: Counter, w: Instant): int {
    if first.start == Some(w) then first.count else 0
  }

  /** The counter accounts for the log: what the open window held at first and the calls since are within its count,
      no window that admitted a call holds more than the limit, and none is later than the open one. */
  ghost predicate Accounted(first: Counter, c: Counter, log: seq<Mark>, limit: int) {
    && (first.start.Some? ==> c.start.Some? && first.start.value <= c.start.value)
    && (c.start.Some? ==> CallsOf(log, c.start.value) + HeldAtFirst(first, c.start.value) <= c.count)
    && (forall w: Instant :: CallsOf(log, w) > 0 ==>
          c.start.Some? && w <= c.start.value && CallsOf(log, w) + HeldAtFirst(first, w) <= limit)
  }

  lemma CallsOfOneMore(log: seq<Mark>, m: Mark, w: Instant)
    ensures CallsOf(log + [m], w) == CallsOf(log, w) + (if m.start == w then 1 else 0)
  {
    assert (log + [m])[..|log|] == log;
  }

  lemma AdmitIsAccounted(first: Counter, c: Counter, log: seq<Mark>, limit: int, now: Instant)
    requires Accounted(first, c, log, limit) && c.start.Some? && c.count < limit
    ensures Accounted(first, c.(count := c.count + 1), log + [Mark(now, c.start.value)], limit)
  {
    var mark := Mark(now, c.start.value);
    CallsOfOneMore(log, mark, c.start.value);
    forall w: Instant | CallsOf(log + [mark], w) > 0
      ensures w <= c.start.value && CallsOf(log + [mark], w) + HeldAtFirst(first, w) <= limit
    {
      CallsOfOneMore(log, mark, w);
    }
  }

  lemma RollOverIsAccounted(first: Counter, c: Counter, log: seq<Mark>, limit: int, now: Instant)
    requires Accounted(first, c, log, limit) && (c.start.Some? ==> c.start.value < now)
    ensures Accounted(first, Counter(0, Some(now)), log, limit)
  {
    assert CallsOf(log, now) == 0;
  }

  lemma HitIsAccounted(first: Counter, c: Counter, log: seq<Mark>, limit: int, width: int, now: Instant)
    requires Accounted(first, c, log, limit) && width > 0
    ensures var hit := TryHit(c, limit, Some(width), now);
            hit.after.start.Some?
            && Accounted(first, hit.after, if hit.ok then log + [Mark(now, hit.after.start.value)] else log, limit)
            && Accounted(first, hit.after, log, limit)
  {
    var rolled := if Elapsed(c, Some(width), now) then Counter(0, Some(now)) else c;
    if Elapsed(c, Some(width), now) { RollOverIsAccounted(first, c, log, limit, now); }
    if rolled.count < limit { AdmitIsAccounted(first, rolled, log, limit, now); }
  }

  /** All a counter that stood at `first` when the log began keeps about the calls admitted since. */
  ghost predicate Recorded(first: Counter, c: Counter, log: seq<Mark>, limit: int, width: int, clock: Instant) {
    Logged(c, log, limit, width, clock) && Accounted(first, c, log, limit)
  }

  /** One call, admitted or refused, keeps the record. */
  lemma HitIsRecorded(first: Counter, c: Counter, log: seq<Mark>, limit: int, width: int, clock: Instant, now: Instant)
    requires Recorded(first, c, log, limit, width, clock) && clock <= now
    ensures var hit := TryHit(c, limit, Some(width), now);
            hit.after.start.Some?
            && Recorded(first, hit.after, if hit.ok then log + [Mark(now, hit.after.start.value)] else log,
                        limit, width, now)
            && Recorded(first, hit.after, log, limit, width, now)
  {
    HitKeepsLog(c, log, limit, width, clock, now);
    HitIsAccounted(first, c, log, limit, width, now);
  }

  /** A counter whose window began in the past, with nothing logged yet. */
  lemma NothingRecorded(first: Counter, limit: int, width: int, clock: Instant)
    requires width > 0 && first.count >= 0 && (first.start.Some? ==> first.start.value <= clock)
    ensures Recorded(first, first, [], limit, width, clock)
  {}

  /** The log accounts for the counter exactly: every call since the window opened is in it. */
  ghost predicate Exact(first: Counter, c: Counter, log: seq<Mark>) {
    c.start.Some? ==> CallsOf(log, c.start.value) + HeldAtFirst(first, c.start.value) == c.count
  }

  lemma HitIsExact(first: Counter, c: Counter, log: seq<Mark>, limit: int, width: int, now: Instant)
    requires Accounted(first, c, log, limit) && Exact(first, c, log) && width > 0
    ensures var hit := TryHit(c, limit, Some(width), now);
            hit.after.start.Some?
            && Exact(first, hit.after, if hit.ok then log + [Mark(now, hit.after.start.value)] else log)
  {
    var rolled := if Elapsed(c, Some(width), now) then Counter(0, Some(now)) else c;
    if Elapsed(c, Some(width), now) { RollOverIsAccounted(first, c, log, limit, now); }
    CallsOfOneMore(log, Mark(now, rolled.start.value), rolled.start.value);
  }

  // ----- The sliding bound -----

  /** The calls admitted at or after `from` and before `to`. */
  function CallsWithin(log: seq<Mark>, from: Instant, to: Instant): nat {
    if log == [] then 0
    else CallsWithin(log[..|log| - 1], from, to) + (if from <= log[|log| - 1].at < to then 1 else 0)
  }

  function CeilDiv(a: int, b: int): int
    requires b > 0
  {
    (a + b - 1) / b
  }

  lemma {:induction false} WindowsSpread(log: seq<Mark>, limit: int, width: int, i: nat, j: nat, windows: nat)
    requires limit >= 1 && Spaced(log, limit, width)
    requires i <= j < |log| && j == i + windows * limit
    ensures log[i].start + windows * width <= log[j].start
    decreases windows
  {
    if windows > 0 {
      assert (windows - 1) * limit == windows * limit - limit;
      assert (windows - 1) * width == windows * width - width;
      assert 0 <= (windows - 1) * limit;
      WindowsSpread(log, limit, width, i, j - limit, windows - 1);
    } else {
      assert windows * limit == 0 && windows * width == 0;
    }
  }

  /** Calls so many whole windows' worth of places apart are that far apart in time, less one window. */
  lemma CallsFarApart(c: Counter, log: seq<Mark>, limit: int, width: int, clock: Instant, i: nat, j: nat, windows: nat)
    requires Logged(c, log, limit, width, clock) && limit >= 1
    requires i <= j < |log| && j - i >= windows * limit
    ensures log[j].at - log[i].at > windows * width - width
  {
    assert windows * limit >= 0;
    var k := i + windows * limit;
    WindowsSpread(log, limit, width, i, k, windows);
    assert k < j ==> SameOrLater(log[k].start, log[j].start, width);
  }

  /** The calls of an interval are consecutive: none before `first`, so at most those from `first` on. */
  lemma {:induction false} CallsFromFirst(log: seq<Mark>, first: nat, from: Instant, to: Instant)
    requires first <= |log|
    requires forall i :: 0 <= i < first ==> log[i].at < from
    ensures CallsWithin(log, from, to) <= |log| - first
    decreases |log|
  {
    if log != [] {
      var rest := log[..|log| - 1];
      if first == |log| {
        CallsFromFirst(rest, first - 1, from, to);
      } else {
        CallsFromFirst(rest, first, from, to);
      }
    }
  }

  lemma {:induction false} CallsEndAtLast(log: seq<Mark>, from: Instant, to: Instant) returns (last: int)
    ensures -1 <= last < |log|
    ensures last >= 0 ==> from <= log[last].at < to
    ensures CallsWithin(log, from, to) == CallsWithin(log[..last + 1], from, to)
    ensures last < 0 ==> CallsWithin(log, from, to) == 0
  {
    if log == [] {
      last := -1;
    } else if from <= log[|log| - 1].at < to {
      last := |log| - 1;
      assert log[..last + 1] == log;
    } else {
      var rest := log[..|log| - 1];
      last := CallsEndAtLast(rest, from, to);
      assert log[..last + 1] == rest[..last + 1];
    }
  }

  function FirstAtOrAfter(log: seq<Mark>, from: Instant, k: nat): (first: nat)
    requires k <= |log|
    ensures first <= |log|
    ensures forall i :: k <= i < first ==> log[i].at < from
    ensures first < |log| ==> log[first].at >= from
    decreases |log| - k
  {
    if k == |log| || log[k].at >= from then k else FirstAtOrAfter(log, from, k + 1)
  }

  /** The calls of an interval lie between its first and its last. */
  lemma CallsSpan(log: seq<Mark>, from: Instant, to: Instant) returns (first: nat, last: nat)
    requires CallsWithin(log, from, to) > 0
    ensures first < |log| && last < |log|
    ensures log[first].at >= from && log[last].at < to
    ensures CallsWithin(log, from, to) <= last + 1 - first
  {
    var end := CallsEndAtLast(log, from, to);
    var upTo := log[..end + 1];
    first, last := FirstAtOrAfter(upTo, from, 0), end;
    CallsFromFirst(upTo, first, from, to);
  }

  /** An interval no longer than so many windows less one holds at most so many limits of calls. */
  lemma CallsInWindows(c: Counter, log: seq<Mark>, limit: int, width: int, clock: Instant,
                       from: Instant, to: Instant, windows: nat)
    requires Logged(c, log, limit, width, clock) && limit >= 1
    requires to - from <= windows * width - width
    requires windows * limit >= 0
    ensures CallsWithin(log, from, to) <= windows * limit
  {
    if CallsWithin(log, from, to) > windows * limit {
      var first, last := CallsSpan(log, from, to);
      CallsFarApart(c, log, limit, width, clock, first, last, windows);
      assert false;
    }
  }

  lemma CeilDivCovers(a: nat, b: int)
    requires b > 0
    ensures CeilDiv(a, b) >= 0 && CeilDiv(a, b) * b >= a
  {
    var q := (a + b - 1) / b;
    assert a + b - 1 == q * b + (a + b - 1) % b;
  }

  /** The sliding bound: any interval of a length holds at most (ceil(length / width) + 1) * limit admitted calls. */
  lemma SlidingBound(c: Counter, log: seq<Mark>, limit: int, width: int, clock: Instant, from: Instant, length: nat)
    requires Logged(c, log, limit, width, clock)
    ensures CallsWithin(log, from, from + length)
            <= (CeilDiv(length, width) + 1) * (if limit < 0 then 0 else limit)
  {
    CeilDivCovers(length, width);
    var windows := CeilDiv(length, width) + 1;
    if limit >= 1 {
      assert windows * width == CeilDiv(length, width) * width + width;
      assert windows * limit >= 0;
      CallsInWindows(c, log, limit, width, clock, from, from + length, windows);
    }
  }

  /** What a record says to those who count: the sliding bound, and that no window, the one open at first with what it
      held then included, has more than the limit. */
  lemma RecordIsBounded(first: Counter, c: Counter, log: seq<Mark>, limit: int, width: int, clock: Instant,
                        from: Instant, length: nat, w: Instant)
    requires Recorded(first, c, log, limit, width, clock)
    ensures CallsWithin(log, from, from + length) <= (CeilDiv(length, width) + 1) * (if limit < 0 then 0 else limit)
    ensures CallsOf(log, w) == 0 || CallsOf(log, w) + HeldAtFirst(first, w) <= limit
  {
    SlidingBound(c, log, limit, width, clock, from, length);
  }
}
