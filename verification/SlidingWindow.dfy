/** Pruned lists of time stamps against the full history they summarise. */
module SlidingWindow {

  /** `filter(t => t > since)`. */
  function Prune(stamps: seq<int>, since: int): seq<int> {
    if stamps == [] then []
    else if stamps[|stamps| - 1] > since then Prune(stamps[..|stamps| - 1], since) + [stamps[|stamps| - 1]]
    else Prune(stamps[..|stamps| - 1], since)
  }

  /** How many entries of a history lie in the half-open interval from `lo` to `hi`. */
  function CountIn(log: seq<int>, lo: int, hi: int): nat {
    if log == [] then 0
    else CountIn(log[..|log| - 1], lo, hi) + if lo < log[|log| - 1] <= hi then 1 else 0
  }

  /** A history under a clock that does not run backwards, up to `now`. */
  predicate Chronological(log: seq<int>, now: int) {
    log == [] || (log[|log| - 1] <= now && Chronological(log[..|log| - 1], log[|log| - 1]))
  }

  lemma {:induction false} PruneTwice(stamps: seq<int>, a: int, b: int)
    requires a <= b
    ensures Prune(Prune(stamps, a), b) == Prune(stamps, b)
  {
    if stamps != [] {
      PruneTwice(stamps[..|stamps| - 1], a, b);
      var front, last := Prune(stamps[..|stamps| - 1], a), stamps[|stamps| - 1];
      assert (front + [last])[..|front|] == front;
    }
  }

  lemma PruneAppend(stamps: seq<int>, t: int, since: int)
    ensures Prune(stamps + [t], since) == if t > since then Prune(stamps, since) + [t] else Prune(stamps, since)
  {
    assert (stamps + [t])[..|stamps|] == stamps;
  }

  lemma {:induction false} PruneCounts(log: seq<int>, since: int, now: int, hi: int)
    requires Chronological(log, now) && now <= hi
    ensures |Prune(log, since)| == CountIn(log, since, hi)
  {
    if log != [] {
      PruneCounts(log[..|log| - 1], since, log[|log| - 1], hi);
    }
  }

  /** What the incremental list must be: the history newer than its last entry minus the window. */
  function Window(log: seq<int>, width: int): seq<int> {
    if log == [] then [] else Prune(log, log[|log| - 1] - width)
  }

  lemma Later(log: seq<int>, now: int)
    requires Chronological(log, now)
    ensures Chronological(log + [now], now)
  {
    assert (log + [now])[..|log|] == log;
  }

  /** Nothing pruned before is missed later. */
  lemma PruneWindow(log: seq<int>, width: int, since: int)
    requires log != [] ==> log[|log| - 1] - width <= since
    ensures Prune(Window(log, width), since) == Prune(log, since)
  {
    if log != [] {
      PruneTwice(log, log[|log| - 1] - width, since);
    }
  }

  /** Pruning the list at an event is pruning the whole history. */
  lemma WindowExtends(log: seq<int>, width: int, now: int)
    requires width > 0 && (log != [] ==> log[|log| - 1] <= now)
    ensures Prune(Window(log, width), now - width) + [now] == Window(log + [now], width)
    ensures Window(log + [now], width) == Prune(log + [now], now - width)
  {
    var all := log + [now];
    assert all[|all| - 1] == now;
    PruneWindow(log, width, now - width);
    PruneAppend(log, now, now - width);
  }

  // ----- windows with a threshold that clears them -----

  /** An event at `now`: prune, append, and clear the list when it is full. Answers whether it was full. */
  function Hit(stamps: seq<int>, width: int, threshold: nat, now: int): (seq<int>, bool) {
    var s := Prune(stamps, now - width) + [now];
    if |s| >= threshold then ([], true) else (s, false)
  }

  /** The same over the unpruned history since the last clearing: full when enough events lie in the window. */
  function FullHit(log: seq<int>, width: int, threshold: nat, now: int): (seq<int>, bool) {
    var l := log + [now];
    if CountIn(l, now - width, now) >= threshold then ([], true) else (l, false)
  }

  /** The pruned list with the new event is as long as the window is full. */
  lemma WindowCounts(log: seq<int>, width: int, now: int)
    requires width > 0 && Chronological(log, now)
    ensures |Prune(Window(log, width), now - width) + [now]| == CountIn(log + [now], now - width, now)
  {
    WindowExtends(log, width, now);
    Later(log, now);
    PruneCounts(log + [now], now - width, now, now);
  }

  /** The pruned list and the full history agree on every event, and the list stays below the threshold. */
  lemma HitRefinesFullHit(log: seq<int>, width: int, threshold: nat, now: int)
    requires width > 0 && Chronological(log, now)
    ensures Hit(Window(log, width), width, threshold, now).1 == FullHit(log, width, threshold, now).1
    ensures Hit(Window(log, width), width, threshold, now).0 == Window(FullHit(log, width, threshold, now).0, width)
    ensures Chronological(FullHit(log, width, threshold, now).0, now)
    ensures threshold > 0 ==> |Hit(Window(log, width), width, threshold, now).0| < threshold
  {
    WindowCounts(log, width, now);
    var s, l := Prune(Window(log, width), now - width) + [now], log + [now];
    assert s == Window(l, width) by {
      WindowExtends(log, width, now);
    }
    assert Chronological(l, now) by {
      Later(log, now);
    }
    assert Window([], width) == [];
  }

  /** Keeping a pruned list, or everything since the last clearing. */
  datatype Discipline = Pruned | Unpruned

  function HitBy(d: Discipline, stamps: seq<int>, width: int, threshold: nat, now: int): (seq<int>, bool) {
    if d == Pruned then Hit(stamps, width, threshold, now) else FullHit(stamps, width, threshold, now)
  }
}
