/** Throttling of the large providers: block tiers with jitter, and the sliding windows that trigger them. */
module ProviderCooldown {
  import opened Results
  import opened SlidingWindow
  import opened SmtpVerdict
  import opened MxProbe

  type Provider = string

  const TIMEOUT_WINDOW_MS := 10 * 60 * 1000
  const REPEATED_TIMEOUTS: nat := 2
  const TEMP_WINDOW_MS := 10 * 60 * 1000
  const REPEATED_TEMP: nat := 2
  const UNKNOWN_WINDOW_MS := 2 * 60 * 1000
  const UNKNOWN_BURST: nat := 5

  const HOUR_MS := 60 * 60 * 1000

  /** One value of `Math.random()`, as an exact real. */
  type Draw = r: real | 0.0 <= r < 1.0 witness 0.0

  datatype Cool = Cool(until: int, lastSmtpAt: int, blockCount: nat, timeouts: seq<int>, temps: seq<int>, unknowns: seq<int>)

  const NEW_COOL: Cool := Cool(0, 0, 0, [], [], [])

  // ----- block durations -----

  function WithJitter(baseMs: nat, r: Draw): int {
    (baseMs as real * (0.85 + r * 0.3)).Floor
  }

  function DurationForTier(blockCount: nat, r: Draw): int {
    if blockCount <= 1 then WithJitter(15 * 60 * 1000, r)
    else if blockCount == 2 then WithJitter(60 * 60 * 1000, r)
    else if blockCount == 3 then WithJitter(4 * 60 * 60 * 1000, r)
    else 12 * 60 * 60 * 1000 + (r * (12 * 60 * 60 * 1000) as real).Floor
  }

  /** The least duration of a tier. */
  function Least(blockCount: nat): int {
    if blockCount <= 1 then 765000 else if blockCount == 2 then 3060000 else if blockCount == 3 then 12240000 else 43200000
  }

  /** No duration of a tier reaches this. */
  function Beyond(blockCount: nat): int {
    if blockCount <= 1 then 1035000 else if blockCount == 2 then 4140000 else if blockCount == 3 then 16560000 else 24 * HOUR_MS
  }

  /** The tiers occupy disjoint, increasing intervals below 24 hours, whatever the jitter. */
  lemma TierIntervals(blockCount: nat, r: Draw)
    ensures Least(blockCount) <= DurationForTier(blockCount, r) < Beyond(blockCount) <= 24 * HOUR_MS
    ensures 1 <= blockCount < 4 ==> Beyond(blockCount) < Least(blockCount + 1)
  {
    if blockCount <= 1 {
      assert (15 * 60 * 1000) as real * (0.85 + r * 0.3) == 765000.0 + r * 270000.0;
    } else if blockCount == 2 {
      assert (60 * 60 * 1000) as real * (0.85 + r * 0.3) == 3060000.0 + r * 1080000.0;
    } else if blockCount == 3 {
      assert (4 * 60 * 60 * 1000) as real * (0.85 + r * 0.3) == 12240000.0 + r * 4320000.0;
    } else {
      assert 0.0 <= r * 43200000.0 < 43200000.0;
    }
  }

  /** The draw with which a tier that starts at `least` and is `spread` wide lasts `ms`. */
  lemma DrawFor(least: int, spread: int, ms: int) returns (r: Draw)
    requires spread > 0 && least <= ms < least + spread
    ensures r * spread as real == (ms - least) as real
  {
    r := (ms - least) as real / spread as real;
  }

  /** A duration is possible for a tier exactly when it is in its interval: every millisecond of it, and nothing outside. */
  lemma TierDurationsExactly(blockCount: nat, ms: int)
    ensures (exists r: Draw :: DurationForTier(blockCount, r) == ms) <==>
            if blockCount <= 1 then 765000 <= ms < 1035000
            else if blockCount == 2 then 3060000 <= ms < 4140000
            else if blockCount == 3 then 12240000 <= ms < 16560000
            else 43200000 <= ms < 86400000
  {
    if r: Draw :| DurationForTier(blockCount, r) == ms {
      TierIntervals(blockCount, r);
    }
    if Least(blockCount) <= ms < Beyond(blockCount) {
      var r := DrawFor(Least(blockCount), Beyond(blockCount) - Least(blockCount), ms);
      DurationAt(blockCount, r, ms);
    }
  }

  lemma DurationAt(blockCount: nat, r: Draw, ms: int)
    requires r * (Beyond(blockCount) - Least(blockCount)) as real == (ms - Least(blockCount)) as real
    ensures DurationForTier(blockCount, r) == ms
  {
    if blockCount <= 1 {
      assert (15 * 60 * 1000) as real * (0.85 + r * 0.3) == 765000.0 + r * 270000.0;
    } else if blockCount == 2 {
      assert (60 * 60 * 1000) as real * (0.85 + r * 0.3) == 3060000.0 + r * 1080000.0;
    } else if blockCount == 3 {
      assert (4 * 60 * 60 * 1000) as real * (0.85 + r * 0.3) == 12240000.0 + r * 4320000.0;
    }
  }

  function Bump(c: Cool, now: int, r: Draw): Cool {
    var n := c.blockCount + 1;
    c.(blockCount := n, until := now + DurationForTier(n, r))
  }

  /** The first four bumps since a reset strictly move `until` forward; every later one leaves at least twelve hours. */
  lemma BumpsEscalate(c: Cool, first: int, second: int, r: Draw, r': Draw)
    requires first <= second
    ensures var a := Bump(c, first, r);
            var b := Bump(a, second, r');
            && (b.blockCount <= 4 ==> b.until > a.until)
            && (b.blockCount >= 4 ==> second + 12 * HOUR_MS <= b.until < second + 24 * HOUR_MS)
  {
    TierIntervals(c.blockCount + 1, r);
    TierIntervals(c.blockCount + 2, r');
  }

  /** From the fifth bump on the block may also end earlier than before. */
  lemma FifthBumpMayShorten(c: Cool, now: int)
    requires c.blockCount >= 3
    ensures Bump(Bump(c, now, 0.5), now, 0.0).until < Bump(c, now, 0.5).until
  {
    assert (0.5 * 43200000.0).Floor == 21600000 && (0.0 * 43200000.0).Floor == 0;
  }

  /** So two bumps in a row are sure to move `until` forward exactly when the second is at most the fourth. */
  lemma SecondBumpAdvancesExactly(c: Cool)
    ensures (forall first, second, r: Draw, r': Draw :: first <= second ==>
               Bump(Bump(c, first, r), second, r').until > Bump(c, first, r).until) <==> c.blockCount <= 2
  {
    if c.blockCount <= 2 {
      forall first, second, r: Draw, r': Draw | first <= second
        ensures Bump(Bump(c, first, r), second, r').until > Bump(c, first, r).until
      {
        BumpsEscalate(c, first, second, r, r');
      }
    } else {
      FifthBumpMayShorten(c, 0);
    }
  }

  // ----- what the hooks record -----

  datatype Event =
    | Network(kind: NetworkKind)
    | Application(r: RcptResult, policyText: bool)
    | Use

  /** The readings of one call: the clock on entry, the clock in `bumpCooldown`, and the random draw. */
  datatype Reading = Reading(now: int, later: int, draw: Draw)

  predicate PolicyReply(r: RcptResult, policyText: bool)
    requires r.Rcpt?
  {
    policyText && (r.code >= 400 || r.class_ == Temporary || r.class_ == PermanentReject)
  }

  /** The answers that start a block by themselves. */
  predicate BlocksAtOnce(r: RcptResult, policyText: bool)
    requires r.Rcpt?
  {
    BlockedReply(r) || PolicyReply(r, policyText) || r.code == 421
  }

  /** What one hook call does to the lists, and whether it starts a block; `d` says how its windows are kept. */
  function Observe(c: Cool, e: Event, now: int, d: Discipline): (Cool, bool) {
    match e
    case Use => (c.(lastSmtpAt := now), false)
    case Network(kind) =>
      if kind == NetTimeout then
        var (s, full) := HitBy(d, c.timeouts, TIMEOUT_WINDOW_MS, REPEATED_TIMEOUTS, now);
        (c.(timeouts := s), full)
      else (c, true)
    case Application(r, policyText) =>
      if !r.Rcpt? then (c, false)
      else if BlocksAtOnce(r, policyText) then (c, true)
      else if r.code == 450 || r.code == 451 then
        var (s, full) := HitBy(d, c.temps, TEMP_WINDOW_MS, REPEATED_TEMP, now);
        (c.(temps := s), full)
      else if r.class_ == ProtocolError then
        var (s, full) := HitBy(d, c.unknowns, UNKNOWN_WINDOW_MS, UNKNOWN_BURST, now);
        (c.(unknowns := s), full)
      else (c, false)
  }

  /** One hook call on the state of a provider. */
  function Record(c: Cool, e: Event, t: Reading, d: Discipline): Cool {
    var (c', block) := Observe(c, e, t.now, d);
    if block then Bump(c', t.later, t.draw) else c'
  }

  lemma UnknownRecord(c: Cool, r: RcptResult, policyText: bool, t: Reading)
    requires r.Rcpt? && !BlocksAtOnce(r, policyText) && r.code != 450 && r.code != 451
    ensures var s := Prune(c.unknowns, t.now - UNKNOWN_WINDOW_MS) + [t.now];
            Record(c, Application(r, policyText), t, Pruned) ==
            if r.class_ != ProtocolError then c
            else if |s| >= UNKNOWN_BURST then Bump(c.(unknowns := []), t.later, t.draw)
            else c.(unknowns := s)
  {
  }

  class CoolState {
    var until: int
    var lastSmtpAt: int
    var blockCount: nat
    var timeoutStamps: seq<int>
    var temp451Stamps: seq<int>
    var unknownStamps: seq<int>

    constructor ()
      ensures View() == NEW_COOL
    {
      until, lastSmtpAt, blockCount := 0, 0, 0;
      timeoutStamps, temp451Stamps, unknownStamps := [], [], [];
    }

    function View(): Cool
      reads this
    {
      Cool(until, lastSmtpAt, blockCount, timeoutStamps, temp451Stamps, unknownStamps)
    }

    method BumpCooldown(now: int, draw: Draw)
      modifies this`until, this`blockCount
      ensures View() == Bump(old(View()), now, draw)
    {
      blockCount := blockCount + 1;
      var duration := DurationForTier(blockCount, draw);
      until := now + duration;
    }

    method NetworkFailure(kind: NetworkKind, t: Reading)
      modifies this
      ensures View() == Record(old(View()), Network(kind), t, Pruned)
    {
      if kind == NetTimeout {
        timeoutStamps := Prune(timeoutStamps, t.now - TIMEOUT_WINDOW_MS);
        timeoutStamps := timeoutStamps + [t.now];
        if |timeoutStamps| >= REPEATED_TIMEOUTS {
          BumpCooldown(t.later, t.draw);
          timeoutStamps := [];
        }
        return;
      }
      BumpCooldown(t.later, t.draw);
    }

    method ApplicationResult(r: RcptResult, policyText: bool, t: Reading)
      requires r.Rcpt?
      modifies this
      ensures View() == Record(old(View()), Application(r, policyText), t, Pruned)
    {
      if r.class_ == ProviderBlock || (r.class_ == Temporary && r.providerBlock) {
        BumpCooldown(t.later, t.draw);
        return;
      }
      if policyText && (r.code >= 400 || r.class_ == Temporary || r.class_ == PermanentReject) {
        BumpCooldown(t.later, t.draw);
        return;
      }
      if r.code == 421 {
        BumpCooldown(t.later, t.draw);
        return;
      }
      assert !BlocksAtOnce(r, policyText);
      RepeatedReplies(r, policyText, t);
    }

    /** The answers that block only when they repeat within a window. */
    method RepeatedReplies(r: RcptResult, policyText: bool, t: Reading)
      requires r.Rcpt? && !BlocksAtOnce(r, policyText)
      modifies this
      ensures View() == Record(old(View()), Application(r, policyText), t, Pruned)
    {
      if r.code == 450 || r.code == 451 {
        temp451Stamps := Prune(temp451Stamps, t.now - TEMP_WINDOW_MS);
        temp451Stamps := temp451Stamps + [t.now];
        if |temp451Stamps| >= REPEATED_TEMP {
          BumpCooldown(t.later, t.draw);
          temp451Stamps := [];
        }
        return;
      }
      UnknownReply(r, policyText, t);
    }

    /** Any other answer, which counts only as a protocol error. */
    method UnknownReply(r: RcptResult, policyText: bool, t: Reading)
      requires r.Rcpt? && !BlocksAtOnce(r, policyText) && r.code != 450 && r.code != 451
      modifies this
      ensures View() == Record(old(View()), Application(r, policyText), t, Pruned)
    {
      UnknownRecord(View(), r, policyText, t);
      if r.class_ == ProtocolError {
        unknownStamps := Prune(unknownStamps, t.now - UNKNOWN_WINDOW_MS);
        unknownStamps := unknownStamps + [t.now];
        if |unknownStamps| >= UNKNOWN_BURST {
          BumpCooldown(t.later, t.draw);
          unknownStamps := [];
        }
      }
    }
  }

  /**
   * The module: one state object per provider, created on first use and mutated
   * in place. `model` is the map of their values.
   */
  class Cooldowns {
    var state: map<Provider, CoolState>
    ghost var model: map<Provider, Cool>

    ghost predicate Valid()
      reads this, state.Values
    {
      && state.Keys == model.Keys
      && (forall p :: p in state ==> state[p].View() == model[p])
      && OwnObjects()
    }

    ghost predicate OwnObjects()
      reads this
    {
      forall p, q :: p in state && q in state && p != q ==> state[p] != state[q]
    }

    /** The model follows a change of the one state object of `p`. */
    ghost method Commit(p: Provider)
      requires state.Keys == model.Keys && OwnObjects() && p in state
      requires forall q :: q in state && q != p ==> state[q].View() == model[q]
      modifies this`model
      ensures Valid() && model == old(model)[p := state[p].View()]
    {
      model := model[p := state[p].View()];
    }

    constructor ()
      ensures Valid() && model == map[]
    {
      state, model := map[], map[];
    }

    method GetOrInit(p: Provider) returns (s: CoolState)
      requires Valid()
      modifies this
      ensures Valid() && p in state && state[p] == s
      ensures model == old(model)[p := if p in old(model) then old(model)[p] else Cool(0, 0, 0, [], [], [])]
      ensures fresh(state.Values - old(state.Values))
    {
      if p in state {
        s := state[p];
      } else {
        s := new CoolState();
        state := state[p := s];
        model := model[p := NEW_COOL];
      }
    }

    method RecordSmtpNetworkFailure(p: Provider, kind: NetworkKind, t: Reading)
      requires Valid()
      modifies this, state.Values
      ensures Valid()
      ensures model == if p == OTHER then old(model)
                       else old(model)[p := Record(OrNew(old(model), p), Network(kind), t, Pruned)]
    {
      if p == OTHER {
        return;
      }
      var s := GetOrInit(p);
      s.NetworkFailure(kind, t);
      Commit(p);
    }

    method RecordSmtpApplicationResult(p: Provider, r: RcptResult, policyText: bool, t: Reading)
      requires Valid()
      modifies this, state.Values
      ensures Valid()
      ensures model == if p == OTHER || !r.Rcpt? then old(model)
                       else old(model)[p := Record(OrNew(old(model), p), Application(r, policyText), t, Pruned)]
    {
      if p == OTHER || !r.Rcpt? {
        return;
      }
      var s := GetOrInit(p);
      s.ApplicationResult(r, policyText, t);
      Commit(p);
    }

    method RecordProviderSmtpUse(p: Provider, t: Reading)
      requires Valid()
      modifies this, state.Values
      ensures Valid()
      ensures model == if p == OTHER then old(model) else old(model)[p := Record(OrNew(old(model), p), Use, t, Pruned)]
    {
      if p == OTHER {
        return;
      }
      var s := GetOrInit(p);
      s.lastSmtpAt := t.now;
      Commit(p);
    }

    /** The end of the current block, or none when SMTP to the provider is allowed. */
    method IsProviderSmtpBlocked(p: Provider, enabled: bool, now: int) returns (until: Option<int>)
      requires Valid()
      ensures until == if enabled && p != "other" && p in model && model[p].until > now then Some(model[p].until) else None
    {
      if !enabled {
        return None;
      }
      if p == OTHER {
        return None;
      }
      if p in state && state[p].until > now {
        return Some(state[p].until);
      }
      return None;
    }

    /** Without a provider the whole module is reset. */
    method ResetProviderCooldown(id: Option<Provider>)
      requires Valid()
      modifies this
      ensures Valid()
      ensures model == if id.None? then map[] else old(model) - {id.value}
    {
      if id.None? {
        state, model := map[], map[];
        return;
      }
      state, model := state - {id.value}, model - {id.value};
    }
  }

  function OrNew(state: map<Provider, Cool>, p: Provider): Cool {
    if p in state then state[p] else NEW_COOL
  }

  // ----- the windows refine full histories -----

  /** `stamps` is the window of the history `log`, and shorter than the threshold. */
  ghost predicate Keeps(stamps: seq<int>, log: seq<int>, width: int, threshold: nat, now: int) {
    stamps == Window(log, width) && Chronological(log, now) && |stamps| < threshold
  }

  lemma HitKeeps(stamps: seq<int>, log: seq<int>, width: int, threshold: nat, clock: int, now: int)
    requires Keeps(stamps, log, width, threshold, clock) && clock <= now && width > 0
    ensures Keeps(stamps, log, width, threshold, now)
    ensures Keeps(Hit(stamps, width, threshold, now).0, FullHit(log, width, threshold, now).0, width, threshold, now)
    ensures Hit(stamps, width, threshold, now).1 == FullHit(log, width, threshold, now).1
  {
    HitRefinesFullHit(log, width, threshold, now);
  }

  /** `c` keeps the windows of the histories `f` keeps in full, each shorter than its threshold. */
  ghost predicate Refines(c: Cool, f: Cool, now: int) {
    && c.until == f.until && c.lastSmtpAt == f.lastSmtpAt && c.blockCount == f.blockCount
    && Keeps(c.timeouts, f.timeouts, TIMEOUT_WINDOW_MS, REPEATED_TIMEOUTS, now)
    && Keeps(c.temps, f.temps, TEMP_WINDOW_MS, REPEATED_TEMP, now)
    && Keeps(c.unknowns, f.unknowns, UNKNOWN_WINDOW_MS, UNKNOWN_BURST, now)
  }

  lemma RefinesLater(c: Cool, f: Cool, clock: int, now: int)
    requires Refines(c, f, clock) && clock <= now
    ensures Refines(c, f, now)
  {
  }

  lemma TimeoutsRefine(c: Cool, f: Cool, now: int)
    requires Refines(c, f, now)
    ensures var (s, full) := Hit(c.timeouts, TIMEOUT_WINDOW_MS, REPEATED_TIMEOUTS, now);
            var (l, whole) := FullHit(f.timeouts, TIMEOUT_WINDOW_MS, REPEATED_TIMEOUTS, now);
            full == whole && Refines(c.(timeouts := s), f.(timeouts := l), now)
  {
    HitKeeps(c.timeouts, f.timeouts, TIMEOUT_WINDOW_MS, REPEATED_TIMEOUTS, now, now);
  }

  lemma TempsRefine(c: Cool, f: Cool, now: int)
    requires Refines(c, f, now)
    ensures var (s, full) := Hit(c.temps, TEMP_WINDOW_MS, REPEATED_TEMP, now);
            var (l, whole) := FullHit(f.temps, TEMP_WINDOW_MS, REPEATED_TEMP, now);
            full == whole && Refines(c.(temps := s), f.(temps := l), now)
  {
    HitKeeps(c.temps, f.temps, TEMP_WINDOW_MS, REPEATED_TEMP, now, now);
  }

  lemma UnknownsRefine(c: Cool, f: Cool, now: int)
    requires Refines(c, f, now)
    ensures var (s, full) := Hit(c.unknowns, UNKNOWN_WINDOW_MS, UNKNOWN_BURST, now);
            var (l, whole) := FullHit(f.unknowns, UNKNOWN_WINDOW_MS, UNKNOWN_BURST, now);
            full == whole && Refines(c.(unknowns := s), f.(unknowns := l), now)
  {
    HitKeeps(c.unknowns, f.unknowns, UNKNOWN_WINDOW_MS, UNKNOWN_BURST, now, now);
  }

  lemma NetworkRefines(c: Cool, f: Cool, kind: NetworkKind, now: int)
    requires Refines(c, f, now)
    ensures Refines(Observe(c, Network(kind), now, Pruned).0, Observe(f, Network(kind), now, Unpruned).0, now)
    ensures Observe(c, Network(kind), now, Pruned).1 == Observe(f, Network(kind), now, Unpruned).1
  {
    if kind == NetTimeout {
      TimeoutsRefine(c, f, now);
    }
  }

  lemma ApplicationRefines(c: Cool, f: Cool, r: RcptResult, policyText: bool, now: int)
    requires Refines(c, f, now)
    ensures Refines(Observe(c, Application(r, policyText), now, Pruned).0, Observe(f, Application(r, policyText), now, Unpruned).0, now)
    ensures Observe(c, Application(r, policyText), now, Pruned).1 == Observe(f, Application(r, policyText), now, Unpruned).1
  {
    if !r.Rcpt? || BlocksAtOnce(r, policyText) {
    } else if r.code == 450 || r.code == 451 {
      TempsRefine(c, f, now);
    } else if r.class_ == ProtocolError {
      UnknownsRefine(c, f, now);
    }
  }

  lemma ObserveRefines(c: Cool, f: Cool, clock: int, e: Event, now: int)
    requires Refines(c, f, clock) && clock <= now
    ensures Refines(Observe(c, e, now, Pruned).0, Observe(f, e, now, Unpruned).0, now)
    ensures Observe(c, e, now, Pruned).1 == Observe(f, e, now, Unpruned).1
  {
    RefinesLater(c, f, clock, now);
    match e
    case Use =>
    case Network(kind) => NetworkRefines(c, f, kind, now);
    case Application(r, policyText) => ApplicationRefines(c, f, r, policyText, now);
  }

  lemma BumpRefines(c: Cool, f: Cool, clock: int, now: int, r: Draw)
    requires Refines(c, f, clock)
    ensures Refines(Bump(c, now, r), Bump(f, now, r), clock)
  {
  }

  /** One hook call: the pruned lists and the full histories block at the same calls for the same time. */
  lemma RecordRefines(c: Cool, f: Cool, clock: int, e: Event, t: Reading)
    requires Refines(c, f, clock) && clock <= t.now
    ensures Refines(Record(c, e, t, Pruned), Record(f, e, t, Unpruned), t.now)
  {
    ObserveRefines(c, f, clock, e, t.now);
    BumpRefines(Observe(c, e, t.now, Pruned).0, Observe(f, e, t.now, Unpruned).0, t.now, t.later, t.draw);
  }

  function RecordAll(c: Cool, calls: seq<(Event, Reading)>, d: Discipline): Cool
    decreases |calls|
  {
    if calls == [] then c else RecordAll(Record(c, calls[0].0, calls[0].1, d), calls[1..], d)
  }

  /** Calls under a clock that does not run backwards, from `clock` on. */
  predicate Timely(calls: seq<(Event, Reading)>, clock: int)
    decreases |calls|
  {
    calls == [] || (clock <= calls[0].1.now <= calls[0].1.later && Timely(calls[1..], calls[0].1.now))
  }

  function ClockAfter(calls: seq<(Event, Reading)>, clock: int): int
    decreases |calls|
  {
    if calls == [] then clock else ClockAfter(calls[1..], calls[0].1.now)
  }

  /**
   * Over any run of hook calls since a reset, keeping only pruned lists decides
   * exactly as counting, in the unpruned history since the last clearing, the
   * events of the window that ends now.
   */
  lemma {:induction false} RunRefinesHistory(c: Cool, f: Cool, clock: int, calls: seq<(Event, Reading)>)
    requires Refines(c, f, clock) && Timely(calls, clock)
    ensures var c', f', now := RecordAll(c, calls, Pruned), RecordAll(f, calls, Unpruned), ClockAfter(calls, clock);
            && Refines(c', f', now)
            && |c'.timeouts| < 2 && |c'.temps| < 2 && |c'.unknowns| < 5
    decreases |calls|
  {
    if calls != [] {
      RecordRefines(c, f, clock, calls[0].0, calls[0].1);
      RunRefinesHistory(Record(c, calls[0].0, calls[0].1, Pruned), Record(f, calls[0].0, calls[0].1, Unpruned), calls[0].1.now, calls[1..]);
    }
  }

  lemma NewRefinesNew(clock: int)
    ensures Refines(NEW_COOL, NEW_COOL, clock)
  {
  }

  lemma TimeoutBlocksExactly(c: Cool, f: Cool, clock: int, t: Reading)
    requires Refines(c, f, clock) && clock <= t.now
    ensures Record(c, Network(NetTimeout), t, Pruned).blockCount == c.blockCount + 1 <==>
            CountIn(f.timeouts + [t.now], t.now - TIMEOUT_WINDOW_MS, t.now) >= REPEATED_TIMEOUTS
  {
    HitKeeps(c.timeouts, f.timeouts, TIMEOUT_WINDOW_MS, REPEATED_TIMEOUTS, clock, t.now);
  }

  lemma TempBlocksExactly(c: Cool, f: Cool, clock: int, r: RcptResult, t: Reading)
    requires Refines(c, f, clock) && clock <= t.now
    requires r.Rcpt? && (r.code == 450 || r.code == 451) && !BlocksAtOnce(r, false)
    ensures Record(c, Application(r, false), t, Pruned).blockCount == c.blockCount + 1 <==>
            CountIn(f.temps + [t.now], t.now - TEMP_WINDOW_MS, t.now) >= REPEATED_TEMP
  {
    HitKeeps(c.temps, f.temps, TEMP_WINDOW_MS, REPEATED_TEMP, clock, t.now);
  }

  /**
   * After any run since a reset, one more timeout or 450/451 starts a block exactly when,
   * with it, enough of its kind since the last clearing lie in the window that ends now.
   */
  lemma RepeatsBlockExactly(calls: seq<(Event, Reading)>, clock: int, r: RcptResult, t: Reading)
    requires Timely(calls, clock) && ClockAfter(calls, clock) <= t.now
    requires r.Rcpt? && (r.code == 450 || r.code == 451) && !BlocksAtOnce(r, false)
    ensures var c, f := RecordAll(NEW_COOL, calls, Pruned), RecordAll(NEW_COOL, calls, Unpruned);
            && (Record(c, Network(NetTimeout), t, Pruned).blockCount == c.blockCount + 1 <==>
                CountIn(f.timeouts + [t.now], t.now - TIMEOUT_WINDOW_MS, t.now) >= REPEATED_TIMEOUTS)
            && (Record(c, Application(r, false), t, Pruned).blockCount == c.blockCount + 1 <==>
                CountIn(f.temps + [t.now], t.now - TEMP_WINDOW_MS, t.now) >= REPEATED_TEMP)
  {
    NewRefinesNew(clock);
    RunRefinesHistory(NEW_COOL, NEW_COOL, clock, calls);
    var c, f := RecordAll(NEW_COOL, calls, Pruned), RecordAll(NEW_COOL, calls, Unpruned);
    TimeoutBlocksExactly(c, f, ClockAfter(calls, clock), t);
    TempBlocksExactly(c, f, ClockAfter(calls, clock), r, t);
  }

  // ----- what starts a block -----

  /** The state after a call, when it starts a block and when it does not. */
  predicate BlocksIf(starts: bool, c: Cool, after: Cool) {
    after.blockCount == c.blockCount + (if starts then 1 else 0) && (!starts ==> after.until == c.until)
  }

  /** Which answers block by themselves, by code and text. */
  lemma CodesThatBlock(code: nat, lines: seq<string>, w: Wording, policyText: bool)
    ensures var r := RcptOf(code, lines, w);
            && (r.Rcpt? ==> r.code == code && r.class_ != ProtocolError)
            && (200 <= code < 300 || 400 <= code < 600 ==> r.Rcpt?)
            && (r.Rcpt? && BlocksAtOnce(r, policyText) <==>
                  ((400 <= code < 600 || code == 252) && (w.blocked(JoinSmtpText(lines)) || policyText)) || code == 421)
  {
  }

  lemma ReplyBlocks(c: Cool, f: Cool, clock: int, r: RcptResult, policyText: bool, t: Reading)
    requires Refines(c, f, clock) && clock <= t.now && (r.Rcpt? ==> r.class_ != ProtocolError)
    ensures var repeated := CountIn(f.temps + [t.now], t.now - 600000, t.now) >= 2;
            BlocksIf(r.Rcpt? && (BlocksAtOnce(r, policyText) || (r.code in {450, 451} && repeated)),
                     c, Record(c, Application(r, policyText), t, Pruned))
  {
    if r.Rcpt? && !BlocksAtOnce(r, policyText) && r.code in {450, 451} {
      HitKeeps(c.temps, f.temps, TEMP_WINDOW_MS, REPEATED_TEMP, clock, t.now);
    }
  }

  lemma FailureBlocks(c: Cool, f: Cool, clock: int, kind: NetworkKind, t: Reading)
    requires Refines(c, f, clock) && clock <= t.now
    ensures BlocksIf(kind != NetTimeout || CountIn(f.timeouts + [t.now], t.now - 600000, t.now) >= 2,
                     c, Record(c, Network(kind), t, Pruned))
  {
    if kind == NetTimeout {
      HitKeeps(c.timeouts, f.timeouts, TIMEOUT_WINDOW_MS, REPEATED_TIMEOUTS, clock, t.now);
    }
  }

  /** The times of the counted calls of a run since two of them last lay within ten minutes. */
  function TimesSince(calls: seq<(Event, Reading)>, counted: Event -> bool): seq<int> {
    if calls == [] then []
    else
      var before := TimesSince(calls[..|calls| - 1], counted);
      var (e, t) := calls[|calls| - 1];
      if !counted(e) then before
      else if CountIn(before + [t.now], t.now - 600000, t.now) >= 2 then []
      else before + [t.now]
  }

  predicate IsTimeout(e: Event) {
    e == Network(NetTimeout)
  }

  /** A 450 or 451 that neither is block-listed nor speaks of policy. */
  predicate IsPlainTemporary(e: Event) {
    && e.Application? && e.r.Rcpt? && e.r.code in {450, 451}
    && e.r.class_ != ProviderBlock && !(e.r.class_ == Temporary && e.r.providerBlock) && !e.policyText
  }

  lemma {:induction false} RecordAllLast(c: Cool, calls: seq<(Event, Reading)>, e: Event, t: Reading, d: Discipline)
    ensures RecordAll(c, calls + [(e, t)], d) == Record(RecordAll(c, calls, d), e, t, d)
    decreases |calls|
  {
    var all := calls + [(e, t)];
    if calls == [] {
      assert all[1..] == [];
    } else {
      RecordAllLast(Record(c, calls[0].0, calls[0].1, d), calls[1..], e, t, d);
      assert all[1..] == calls[1..] + [(e, t)];
    }
  }

  lemma OneCallLogs(f: Cool, e: Event, t: Reading)
    ensures var g := Record(f, e, t, Unpruned);
            && g.timeouts == (if !IsTimeout(e) then f.timeouts
                              else if CountIn(f.timeouts + [t.now], t.now - 600000, t.now) >= 2 then [] else f.timeouts + [t.now])
            && g.temps == (if !IsPlainTemporary(e) then f.temps
                           else if CountIn(f.temps + [t.now], t.now - 600000, t.now) >= 2 then [] else f.temps + [t.now])
  {
  }

  lemma TimesSinceNext(calls: seq<(Event, Reading)>, e: Event, t: Reading, counted: Event -> bool)
    ensures var before := TimesSince(calls, counted);
            TimesSince(calls + [(e, t)], counted) ==
            if !counted(e) then before
            else if CountIn(before + [t.now], t.now - 600000, t.now) >= 2 then [] else before + [t.now]
  {
    assert (calls + [(e, t)])[..|calls|] == calls;
  }

  /** The full histories hold the calls they are named after, and nothing else. */
  lemma {:induction false} HistoriesAre(calls: seq<(Event, Reading)>)
    ensures var f := RecordAll(NEW_COOL, calls, Unpruned);
            f.timeouts == TimesSince(calls, IsTimeout) && f.temps == TimesSince(calls, IsPlainTemporary)
  {
    if calls != [] {
      var front := calls[..|calls| - 1];
      HistoriesAre(front);
      OneMoreCall(front, calls[|calls| - 1].0, calls[|calls| - 1].1);
      assert calls == front + [(calls[|calls| - 1].0, calls[|calls| - 1].1)];
    }
  }

  lemma OneMoreCall(calls: seq<(Event, Reading)>, e: Event, t: Reading)
    requires var f := RecordAll(NEW_COOL, calls, Unpruned);
             f.timeouts == TimesSince(calls, IsTimeout) && f.temps == TimesSince(calls, IsPlainTemporary)
    ensures var f := RecordAll(NEW_COOL, calls + [(e, t)], Unpruned);
            && f.timeouts == TimesSince(calls + [(e, t)], IsTimeout)
            && f.temps == TimesSince(calls + [(e, t)], IsPlainTemporary)
  {
    RecordAllLast(NEW_COOL, calls, e, t, Unpruned);
    OneCallLogs(RecordAll(NEW_COOL, calls, Unpruned), e, t);
    TimesSinceNext(calls, e, t, IsTimeout);
    TimesSinceNext(calls, e, t, IsPlainTemporary);
  }

  /**
   * After any run since a reset, one more answer for a recipient starts a block in exactly
   * these cases: it is a 4xx, a 5xx or a 252 whose text is block-listed or, under the
   * cooldown's own patterns, about policy; it is a 421; or it is a 450 or 451 that is, within
   * ten minutes, the second since the last block for repeated ones. An accepted recipient
   * never does, and neither does an unsuspicious rejection.
   */
  lemma RepliesThatBlock(calls: seq<(Event, Reading)>, clock: int, code: nat, lines: seq<string>, w: Wording, policyText: bool, t: Reading)
    requires Timely(calls, clock) && ClockAfter(calls, clock) <= t.now
    ensures var c := RecordAll(NEW_COOL, calls, Pruned);
            var repeated := CountIn(TimesSince(calls, IsPlainTemporary) + [t.now], t.now - 600000, t.now) >= 2;
            var starts := || ((400 <= code < 600 || code == 252) && (w.blocked(JoinSmtpText(lines)) || policyText))
                          || code == 421 || (code in {450, 451} && repeated);
            BlocksIf(starts, c, Record(c, Application(RcptOf(code, lines, w), policyText), t, Pruned))
  {
    NewRefinesNew(clock);
    RunRefinesHistory(NEW_COOL, NEW_COOL, clock, calls);
    HistoriesAre(calls);
    var c, f := RecordAll(NEW_COOL, calls, Pruned), RecordAll(NEW_COOL, calls, Unpruned);
    CodesThatBlock(code, lines, w, policyText);
    ReplyBlocks(c, f, ClockAfter(calls, clock), RcptOf(code, lines, w), policyText, t);
  }

  /**
   * After any run since a reset, a failure of transport starts a block exactly when it is not
   * a timeout, or is, within ten minutes, the second timeout since the last block for repeated
   * ones. Using the provider changes nothing but the time of its last use.
   */
  lemma FailuresThatBlock(calls: seq<(Event, Reading)>, clock: int, kind: NetworkKind, t: Reading)
    requires Timely(calls, clock) && ClockAfter(calls, clock) <= t.now
    ensures var c := RecordAll(NEW_COOL, calls, Pruned);
            var repeated := CountIn(TimesSince(calls, IsTimeout) + [t.now], t.now - 600000, t.now) >= 2;
            && BlocksIf(kind != NetTimeout || repeated, c, Record(c, Network(kind), t, Pruned))
            && Record(c, Use, t, Pruned) == Cool(c.until, t.now, c.blockCount, c.timeouts, c.temps, c.unknowns)
  {
    NewRefinesNew(clock);
    RunRefinesHistory(NEW_COOL, NEW_COOL, clock, calls);
    HistoriesAre(calls);
    FailureBlocks(RecordAll(NEW_COOL, calls, Pruned), RecordAll(NEW_COOL, calls, Unpruned), ClockAfter(calls, clock), kind, t);
  }

  /** Whatever starts a block, the block ends as many milliseconds after the clock as the tier of its number allows. */
  lemma BlockEnds(c: Cool, e: Event, t: Reading)
    ensures var after := Record(c, e, t, Pruned);
            after.blockCount != c.blockCount ==>
              && after.blockCount == c.blockCount + 1
              && (if c.blockCount == 0 then 765000 <= after.until - t.later < 1035000
                  else if c.blockCount == 1 then 3060000 <= after.until - t.later < 4140000
                  else if c.blockCount == 2 then 12240000 <= after.until - t.later < 16560000
                  else 43200000 <= after.until - t.later < 86400000)
  {
    TierIntervals(c.blockCount + 1, t.draw);
  }

  // ----- a block holds -----

  /**
   * A block once started holds for at least the least duration of its tier,
   * whatever is recorded meanwhile: no later hook call lets `until` fall below it.
   */
  lemma {:induction false} BlockHolds(c: Cool, bumpedAt: int, clock: int, calls: seq<(Event, Reading)>)
    requires c.blockCount >= 1 && c.until >= bumpedAt + Least(c.blockCount)
    requires bumpedAt <= clock && Timely(calls, clock)
    ensures RecordAll(c, calls, Pruned).until >= bumpedAt + Least(c.blockCount)
    ensures RecordAll(c, calls, Pruned).blockCount >= c.blockCount
    decreases |calls|
  {
    if calls != [] {
      var (e, t) := calls[0];
      var c' := Record(c, e, t, Pruned);
      TierIntervals(c.blockCount + 1, t.draw);
      assert c'.blockCount == c.blockCount ==> c'.until == c.until;
      assert c'.blockCount != c.blockCount ==> c'.blockCount == c.blockCount + 1 && c'.until >= t.later + Least(c'.blockCount);
      LeastGrows(c.blockCount, c'.blockCount);
      if c'.blockCount == c.blockCount {
        BlockHolds(c', bumpedAt, t.now, calls[1..]);
      } else {
        BlockHolds(c', bumpedAt, t.now, calls[1..]);
      }
    }
  }

  lemma LeastGrows(a: nat, b: nat)
    requires a <= b
    ensures Least(a) <= Least(b)
  {
  }

  /** Every failure the probe accounts for blocks the provider at once, for at least the least tier. */
  lemma ProbeFailureBlocks(c: Cool, lastFail: RcptResult, config: Config, host: string, t: Reading)
    requires lastFail.MxFail? && lastFail.error != Timeout && config.provider.Some? && config.provider.value != OTHER
    ensures var kind := Account(config, host, lastFail).reported;
            && kind.Some?
            && Record(c, Network(kind.value), t, Pruned).blockCount == c.blockCount + 1
            && Record(c, Network(kind.value), t, Pruned).until >= t.later + 765000
  {
    TierIntervals(c.blockCount + 1, t.draw);
  }

  /** The unknown-response burst counter is never fed: no classified reply is a protocol error. */
  lemma UnknownBurstIsDead(c: Cool, code: nat, lines: seq<string>, w: Wording, policyText: bool, t: Reading)
    ensures Record(c, Application(RcptOf(code, lines, w), policyText), t, Pruned).unknowns == c.unknowns
  {
    NoProtocolErrorReply(code, lines, w);
  }
}
