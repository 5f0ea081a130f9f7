/** MX records of a domain: normalisation, the cached lookup with retries, the address check, and the order of contact. */
module MxLookup {
  import opened Results
  import opened StableSort
  import opened Text
  import SmtpVerdict
  import MxProbe

  datatype Mx = Mx(exchange: string, priority: int)

  datatype DnsValue = DnsValue(mx: seq<Mx>, nx: bool)

  datatype LookupResult =
    | Ok(records: seq<Mx>)
    | NoMx
    | NxDomain
    | LookupError(message: string, code: Option<string>, transient: bool)

  /** What one resolver call answers. */
  datatype Answer = Records(raw: seq<Mx>) | AnswerTimeout(message: string) | AnswerError(code: Option<string>, message: string)

  // ----- normalisation -----

  function Priority(m: Mx): int { m.priority }

  function StripDot(s: string): string {
    if s != "" && s[|s| - 1] == '.' then s[..|s| - 1] else s
  }

  function NormalizeOne(m: Mx): Mx {
    Mx(Lower(StripDot(m.exchange)), m.priority)
  }

  function NormalizeEach(records: seq<Mx>): seq<Mx> {
    seq(|records|, i requires 0 <= i < |records| => NormalizeOne(records[i]))
  }

  function NormalizeMxRecords(records: seq<Mx>): seq<Mx> {
    Sort(NormalizeEach(records), Priority)
  }

  /** `name` is how the exchanger the resolver calls `raw` is used: without one final dot, in lower case. */
  predicate Canonical(name: string, raw: string) {
    if raw != "" && raw[|raw| - 1] == '.' then InLowerCase(name + ".", raw) else InLowerCase(name, raw)
  }

  lemma NormalizeOneLaw(m: Mx)
    ensures NormalizeOne(m).priority == m.priority && Canonical(NormalizeOne(m).exchange, m.exchange)
  {
    LowerLaw(StripDot(m.exchange), "");
  }

  /**
   * Lowest preference number first, equal preferences as the resolver gave them (section
   * 5.1 of RFC 5321): `place` says which of the resolver's records each one is. None is
   * used twice, each keeps its preference, and its name only loses a final dot and its case.
   */
  lemma NormalizeLaw(raw: seq<Mx>) returns (place: seq<nat>)
    ensures var out := NormalizeMxRecords(raw);
            && |place| == |out| == |raw|
            && (forall i :: 0 <= i < |out| ==>
                  && place[i] < |raw| && out[i].priority == raw[place[i]].priority
                  && Canonical(out[i].exchange, raw[place[i]].exchange))
            && (forall i, k :: 0 <= i < k < |out| ==>
                  && raw[place[i]].priority <= raw[place[k]].priority
                  && (raw[place[i]].priority == raw[place[k]].priority ==> place[i] < place[k]))
            && (forall i, k :: 0 <= i < k < |out| ==> place[i] != place[k])
    ensures SortedBy(NormalizeMxRecords(raw), Priority)
  {
    SortSorts(NormalizeEach(raw), Priority);
    place := SortPlaces(NormalizeEach(raw), Priority);
    forall i | 0 <= i < |place|
      ensures NormalizeMxRecords(raw)[i].priority == raw[place[i]].priority
      ensures Canonical(NormalizeMxRecords(raw)[i].exchange, raw[place[i]].exchange)
    {
      NormalizeOneLaw(raw[place[i]]);
    }
  }

  // ----- the lookup loop -----

  /** The result of a lookup, what it stores, and how often the resolver was called. */
  datatype Looked = Looked(result: LookupResult, fill: Option<DnsValue>, calls: nat)

  predicate NameMissing(code: Option<string>) {
    code == Some("ENOTFOUND") || code == Some("EAI_NONAME")
  }

  predicate TransientDns(code: Option<string>) {
    code == Some("ESERVFAIL") || code == Some("EAI_AGAIN") || code == Some("ETIMEOUT") || code == None || code == Some("")
  }

  /** An answer that ends the lookup whatever the attempt. */
  predicate Conclusive(a: Answer) {
    a.Records? || (a.AnswerError? && (NameMissing(a.code) || a.code == Some("ENODATA")))
  }

  function Conclude(a: Answer): (LookupResult, DnsValue)
    requires Conclusive(a)
  {
    match a
    case Records(raw) =>
      var norm := NormalizeMxRecords(raw);
      if norm == [] then (NoMx, DnsValue([], false)) else (Ok(norm), DnsValue(norm, false))
    case AnswerError(code, _) => if NameMissing(code) then (NxDomain, DnsValue([], true)) else (NoMx, DnsValue([], false))
  }

  function GiveUp(a: Answer): LookupResult
    requires !Conclusive(a)
  {
    match a
    case AnswerTimeout(m) => LookupError(m, Some("TIMEOUT"), true)
    case AnswerError(code, m) => LookupError(m, code, TransientDns(code))
  }

  /** The first conclusive answer decides; without one, the answer of the last attempt is the error. */
  function LookupFrom(answers: nat -> Answer, attempt: nat, retries: nat): Looked
    requires attempt <= retries
    decreases retries - attempt
  {
    var a := answers(attempt);
    if Conclusive(a) then Looked(Conclude(a).0, Some(Conclude(a).1), 1)
    else if attempt == retries then Looked(GiveUp(a), None, 1)
    else
      var rest := LookupFrom(answers, attempt + 1, retries);
      rest.(calls := rest.calls + 1)
  }

  function FromCache(hit: DnsValue): LookupResult {
    if hit.nx then NxDomain else if hit.mx == [] then NoMx else Ok(hit.mx)
  }

  /** A cached value holds a sorted list, and none for a name that does not exist. */
  ghost predicate CacheValueOk(v: DnsValue) {
    SortedBy(v.mx, Priority) && (v.nx ==> v.mx == [])
  }

  ghost predicate CacheOk(cache: map<string, DnsValue>) {
    forall k :: k in cache ==> CacheValueOk(cache[k])
  }

  class MxResolver {
    const retries: nat
    var dnsCache: map<string, DnsValue>

    constructor (retries: nat)
      ensures this.retries == retries && dnsCache == map[]
    {
      this.retries := retries;
      dnsCache := map[];
    }

    method LookupMx(domain: string, forceRefresh: bool, answers: nat -> Answer) returns (result: LookupResult, calls: nat)
      modifies this
      ensures (dnsCache, result, calls) == DoLookup(old(dnsCache), retries, Lower(domain), forceRefresh, answers)
    {
      calls := 0;
      var key := Lower(domain);
      if forceRefresh {
        dnsCache := dnsCache - {key};
      }
      if key in dnsCache {
        var hit := dnsCache[key];
        if hit.nx {
          return NxDomain, calls;
        }
        if |hit.mx| == 0 {
          return NoMx, calls;
        }
        return Ok(hit.mx), calls;
      }
      result, calls := Resolve(key, answers);
    }

    /** The attempts of a lookup that found nothing in the cache. */
    method Resolve(key: string, answers: nat -> Answer) returns (result: LookupResult, calls: nat)
      modifies this
      ensures var l := LookupFrom(answers, 0, retries);
              && result == l.result && calls == l.calls
              && dnsCache == if l.fill.Some? then old(dnsCache)[key := l.fill.value] else old(dnsCache)
    {
      calls := 0;
      ghost var l := LookupFrom(answers, 0, retries);
      var attempt := 0;
      while attempt <= retries
        invariant 0 <= attempt <= retries && calls == attempt
        invariant var rest := LookupFrom(answers, attempt, retries); l == rest.(calls := rest.calls + calls)
        invariant dnsCache == old(dnsCache)
        decreases retries - attempt
      {
        var a := answers(attempt);
        calls := calls + 1;
        match a {
          case Records(raw) =>
            var norm := NormalizeMxRecords(raw);
            if |norm| == 0 {
              dnsCache := dnsCache[key := DnsValue([], false)];
              return NoMx, calls;
            }
            dnsCache := dnsCache[key := DnsValue(norm, false)];
            return Ok(norm), calls;
          case AnswerTimeout(m) =>
            if attempt == retries {
              return LookupError(m, Some("TIMEOUT"), true), calls;
            }
          case AnswerError(code, m) =>
            if NameMissing(code) {
              dnsCache := dnsCache[key := DnsValue([], true)];
              return NxDomain, calls;
            }
            if code == Some("ENODATA") {
              dnsCache := dnsCache[key := DnsValue([], false)];
              return NoMx, calls;
            }
            if attempt == retries {
              return LookupError(m, code, TransientDns(code)), calls;
            }
        }
        attempt := attempt + 1;
      }
      // The loop returns in its last round: the "dns exhausted" error behind it is never built.
      assert false;
    }
  }

  /** One lookup as a function of the cache. */
  function DoLookup(cache: map<string, DnsValue>, retries: nat, key: string, forceRefresh: bool, answers: nat -> Answer):
    (map<string, DnsValue>, LookupResult, nat)
  {
    var cache' := if forceRefresh then cache - {key} else cache;
    if key in cache' then (cache', FromCache(cache'[key]), 0)
    else
      var l := LookupFrom(answers, 0, retries);
      (if l.fill.Some? then cache'[key := l.fill.value] else cache', l.result, l.calls)
  }

  /** What a lookup stores gives the same result when read back; errors are never stored; the calls are bounded. */
  lemma {:induction false} LookupLaw(answers: nat -> Answer, attempt: nat, retries: nat)
    requires attempt <= retries
    ensures var l := LookupFrom(answers, attempt, retries);
            && (l.fill.None? <==> l.result.LookupError?)
            && (l.fill.Some? ==> CacheValueOk(l.fill.value) && FromCache(l.fill.value) == l.result)
            && 1 <= l.calls <= retries - attempt + 1
    decreases retries - attempt
  {
    var a := answers(attempt);
    if Conclusive(a) {
      if a.Records? {
        var _ := NormalizeLaw(a.raw);
      }
    } else if attempt < retries {
      LookupLaw(answers, attempt + 1, retries);
    }
  }

  /** What an answer makes of the lookup it decides, on its last attempt or before. */
  ghost predicate Decides(a: Answer, atLast: bool, result: LookupResult, fill: Option<DnsValue>) {
    match a
    case Records(raw) =>
      && result == (if raw == [] then NoMx else Ok(NormalizeMxRecords(raw)))
      && fill == Some(DnsValue(NormalizeMxRecords(raw), false))
    case AnswerTimeout(m) => atLast && result == LookupError(m, Some("TIMEOUT"), true) && fill == None
    case AnswerError(code, m) =>
      if code == Some("ENOTFOUND") || code == Some("EAI_NONAME") then result == NxDomain && fill == Some(DnsValue([], true))
      else if code == Some("ENODATA") then result == NoMx && fill == Some(DnsValue([], false))
      else
        && atLast && fill == None
        && result == LookupError(m, code, code in {None, Some(""), Some("ESERVFAIL"), Some("EAI_AGAIN"), Some("ETIMEOUT")})
  }

  /** An answer that brings no records and does not say that there are none. */
  predicate TellsNothing(a: Answer) {
    a.AnswerTimeout? || (a.AnswerError? && a.code !in {Some("ENOTFOUND"), Some("EAI_NONAME"), Some("ENODATA")})
  }

  lemma OneAnswerDecides(answers: nat -> Answer, attempt: nat, retries: nat)
    requires attempt <= retries && (Conclusive(answers(attempt)) || attempt == retries)
    ensures var l := LookupFrom(answers, attempt, retries);
            l.calls == 1 && Decides(answers(attempt), attempt == retries, l.result, l.fill)
  {
    if answers(attempt).Records? {
      var _ := NormalizeLaw(answers(attempt).raw);
    }
  }

  /**
   * Which answer decides a lookup, and what it makes of it: the first answer that brings
   * records, says that the name does not exist, or that it has none of them; and else the
   * last attempt, whose failure is passed on.
   */
  lemma {:induction false} DecidingAnswer(answers: nat -> Answer, attempt: nat, retries: nat)
    requires attempt <= retries
    ensures var l := LookupFrom(answers, attempt, retries);
            var k := attempt + l.calls - 1;
            && attempt <= k <= retries
            && (forall i: nat :: attempt <= i < k ==> TellsNothing(answers(i)))
            && Decides(answers(k), k == retries, l.result, l.fill)
    decreases retries - attempt
  {
    if Conclusive(answers(attempt)) || attempt == retries {
      OneAnswerDecides(answers, attempt, retries);
    } else {
      DecidingAnswer(answers, attempt + 1, retries);
    }
  }

  /**
   * One lookup: a cached entry answers it, without a call and without a change, unless a
   * refresh is forced; otherwise the resolver does, the entry of this key becomes its answer
   * or goes, and no other entry changes.
   */
  lemma LookupOnce(cache: map<string, DnsValue>, retries: nat, key: string, forceRefresh: bool, answers: nat -> Answer)
    ensures var (cache', r, calls) := DoLookup(cache, retries, key, forceRefresh, answers);
            if key in cache && !forceRefresh then
              && cache' == cache && calls == 0
              && r == (if cache[key].nx then NxDomain else if cache[key].mx == [] then NoMx else Ok(cache[key].mx))
            else
              && r == LookupFrom(answers, 0, retries).result && calls == LookupFrom(answers, 0, retries).calls
              && cache' == if r.LookupError? then cache - {key}
                           else cache[key := DnsValue(if r.Ok? then r.records else [], r == NxDomain)]
  {
    DecidingAnswer(answers, 0, retries);
    var l := LookupFrom(answers, 0, retries);
    if answers(l.calls - 1).Records? {
      var _ := NormalizeLaw(answers(l.calls - 1).raw);
    }
    assert key !in cache ==> cache - {key} == cache;
  }

  // ----- the cache over a run of overlapping lookups -----

  /** A lookup that waits for the resolver, with the answers it has had. */
  datatype Flight = Flight(key: string, heard: seq<Answer>)

  /** A finished lookup: its result, and the resolver answers it took; none for a hit. */
  datatype Finished = Finished(result: LookupResult, heard: seq<Answer>)

  /** A lookup starts, the resolver answers one, or a cached entry expires, which may happen at any time. */
  datatype Event = Begin(id: nat, key: string, force: bool) | Answered(id: nat, a: Answer) | Expire(key: string)

  /** `last` is the latest result stored for a key. */
  datatype World = World(cache: map<string, DnsValue>, last: map<string, LookupResult>,
                         flights: map<nat, Flight>, finished: map<nat, Finished>)

  const NO_LOOKUPS: World := World(map[], map[], map[], map[])

  predicate Enabled(w: World, e: Event) {
    match e
    case Begin(id, _, _) => id !in w.flights && id !in w.finished
    case Answered(id, _) => id in w.flights
    case Expire(_) => true
  }

  function Step(w: World, retries: nat, e: Event): World
    requires Enabled(w, e)
  {
    match e
    case Expire(key) => w.(cache := w.cache - {key})
    case Begin(id, key, force) =>
      var cache := if force then w.cache - {key} else w.cache;
      if key in cache then w.(cache := cache, finished := w.finished[id := Finished(FromCache(cache[key]), [])])
      else w.(cache := cache, flights := w.flights[id := Flight(key, [])])
    case Answered(id, a) =>
      var f := w.flights[id];
      var heard := f.heard + [a];
      if Conclusive(a) then
        World(w.cache[f.key := Conclude(a).1], w.last[f.key := Conclude(a).0], w.flights - {id},
              w.finished[id := Finished(Conclude(a).0, heard)])
      else if |f.heard| >= retries then
        w.(flights := w.flights - {id}, finished := w.finished[id := Finished(GiveUp(a), heard)])
      else w.(flights := w.flights[id := Flight(f.key, heard)])
  }

  predicate Feasible(w: World, retries: nat, run: seq<Event>)
    decreases |run|
  {
    run == [] || (Enabled(w, run[0]) && Feasible(Step(w, retries, run[0]), retries, run[1..]))
  }

  function Exec(w: World, retries: nat, run: seq<Event>): World
    requires Feasible(w, retries, run)
    decreases |run|
  {
    if run == [] then w else Exec(Step(w, retries, run[0]), retries, run[1..])
  }

  /** The answers a lookup had, as the sequence the attempts of one lookup draw on. */
  function Drawn(heard: seq<Answer>): nat -> Answer {
    (k: nat) => if k < |heard| then heard[k] else AnswerTimeout("")
  }

  /** Every entry replays the resolver result that was stored last for its key, and holds a sorted list; no error is stored. */
  ghost predicate CacheInv(w: World) {
    && CacheOk(w.cache)
    && (forall k :: k in w.cache ==> k in w.last && FromCache(w.cache[k]) == w.last[k])
    && (forall k :: k in w.last ==> !w.last[k].LookupError?)
  }

  predicate Inconclusive(heard: seq<Answer>) {
    forall i :: 0 <= i < |heard| ==> !Conclusive(heard[i])
  }

  /** A finished lookup was a hit, or is what its own answers make of a lookup alone. */
  ghost predicate FinishedOk(d: Finished, retries: nat) {
    && (d.result.Ok? ==> SortedBy(d.result.records, Priority))
    && (d.heard == [] ==> !d.result.LookupError?)
    && (d.heard != [] ==> LookupFrom(Drawn(d.heard), 0, retries).result == d.result
                          && LookupFrom(Drawn(d.heard), 0, retries).calls == |d.heard|)
  }

  ghost predicate WorldInv(w: World, retries: nat) {
    && CacheInv(w)
    && (forall id :: id in w.flights ==> |w.flights[id].heard| <= retries && Inconclusive(w.flights[id].heard))
    && (forall id :: id in w.finished ==> FinishedOk(w.finished[id], retries))
  }

  /** Answers heard one by one give what the attempt loop gives. */
  lemma {:induction false} HeardIsLookup(heard: seq<Answer>, attempt: nat, retries: nat)
    requires attempt < |heard| <= retries + 1 && Inconclusive(heard[..|heard| - 1])
    requires Conclusive(heard[|heard| - 1]) || |heard| == retries + 1
    ensures var l, a := LookupFrom(Drawn(heard), attempt, retries), heard[|heard| - 1];
            && l.calls == |heard| - attempt
            && l.result == if Conclusive(a) then Conclude(a).0 else GiveUp(a)
    decreases |heard| - attempt
  {
    if attempt + 1 < |heard| {
      assert heard[..|heard| - 1][attempt] == heard[attempt];
      HeardIsLookup(heard, attempt + 1, retries);
    }
  }

  lemma ConclusionIsSorted(a: Answer)
    requires Conclusive(a)
    ensures CacheValueOk(Conclude(a).1) && FromCache(Conclude(a).1) == Conclude(a).0 && !Conclude(a).0.LookupError?
    ensures Conclude(a).0.Ok? ==> SortedBy(Conclude(a).0.records, Priority)
  {
    if a.Records? {
      var _ := NormalizeLaw(a.raw);
    }
  }

  lemma StepKeepsWorldInv(w: World, retries: nat, e: Event)
    requires WorldInv(w, retries) && Enabled(w, e)
    ensures WorldInv(Step(w, retries, e), retries)
  {
    match e
    case Begin(_, _, _) =>
    case Expire(_) =>
    case Answered(id, a) =>
      if Conclusive(a) {
        ConclusiveKeepsInv(w, retries, id, a);
      } else {
        InconclusiveKeepsInv(w, retries, id, a);
      }
  }

  lemma LastAnswer(f: Flight, a: Answer, retries: nat)
    requires |f.heard| <= retries && Inconclusive(f.heard) && (Conclusive(a) || |f.heard| == retries)
    ensures FinishedOk(Finished(if Conclusive(a) then Conclude(a).0 else GiveUp(a), f.heard + [a]), retries)
  {
    var heard := f.heard + [a];
    assert heard[..|heard| - 1] == f.heard;
    HeardIsLookup(heard, 0, retries);
    if Conclusive(a) {
      ConclusionIsSorted(a);
    }
  }

  lemma ConclusiveKeepsInv(w: World, retries: nat, id: nat, a: Answer)
    requires WorldInv(w, retries) && id in w.flights && Conclusive(a)
    ensures WorldInv(Step(w, retries, Answered(id, a)), retries)
  {
    LastAnswer(w.flights[id], a, retries);
    ConclusionIsSorted(a);
  }

  lemma InconclusiveKeepsInv(w: World, retries: nat, id: nat, a: Answer)
    requires WorldInv(w, retries) && id in w.flights && !Conclusive(a)
    ensures WorldInv(Step(w, retries, Answered(id, a)), retries)
  {
    if |w.flights[id].heard| >= retries {
      LastAnswer(w.flights[id], a, retries);
    }
  }

  lemma {:induction false} RunKeepsCacheInv(w: World, retries: nat, run: seq<Event>)
    requires WorldInv(w, retries) && Feasible(w, retries, run)
    ensures WorldInv(Exec(w, retries, run), retries)
    decreases |run|
  {
    if run != [] {
      StepKeepsWorldInv(w, retries, run[0]);
      RunKeepsCacheInv(Step(w, retries, run[0]), retries, run[1..]);
    }
  }

  /**
   * However lookups of the same or of other domains overlap: a lookup that finishes is a
   * hit or has at most retries-plus-one resolver calls, its result is the one its own
   * answers give a lookup alone, and whatever records it returns are sorted by preference.
   */
  lemma LookupAfterRun(retries: nat, run: seq<Event>, id: nat)
    requires Feasible(NO_LOOKUPS, retries, run) && id in Exec(NO_LOOKUPS, retries, run).finished
    ensures var d := Exec(NO_LOOKUPS, retries, run).finished[id];
            && |d.heard| <= retries + 1
            && (d.heard != [] ==> d.result == LookupFrom(Drawn(d.heard), 0, retries).result)
            && (d.heard == [] ==> !d.result.LookupError?)
            && (d.result.Ok? ==> SortedBy(d.result.records, Priority))
  {
    RunKeepsCacheInv(NO_LOOKUPS, retries, run);
    var d := Exec(NO_LOOKUPS, retries, run).finished[id];
    LookupLaw(Drawn(d.heard), 0, retries);
  }

  /** A lookup is a hit exactly when an entry is cached and no refresh is forced, and then repeats the result stored last. */
  lemma HitRepeatsStored(retries: nat, run: seq<Event>, id: nat, key: string, force: bool)
    requires Feasible(NO_LOOKUPS, retries, run) && Enabled(Exec(NO_LOOKUPS, retries, run), Begin(id, key, force))
    ensures var w := Exec(NO_LOOKUPS, retries, run);
            var w' := Step(w, retries, Begin(id, key, force));
            && (id in w'.finished <==> key in w.cache && !force)
            && (id in w'.finished ==> key in w.last && w'.finished[id] == Finished(w.last[key], []))
            && (id !in w'.finished ==> w'.flights[id] == Flight(key, []) && key !in w'.cache)
  {
    RunKeepsCacheInv(NO_LOOKUPS, retries, run);
  }

  /** The resolver answers one lookup `n` times, from attempt `from` on. */
  function Asked(id: nat, answers: nat -> Answer, from: nat, n: nat): seq<Event>
    decreases n
  {
    if n == 0 then [] else [Answered(id, answers(from))] + Asked(id, answers, from + 1, n - 1)
  }

  lemma {:induction false} AskedIsLookup(w: World, retries: nat, id: nat, answers: nat -> Answer, from: nat)
    requires id in w.flights && |w.flights[id].heard| == from <= retries
    ensures var l := LookupFrom(answers, from, retries);
            var run := Asked(id, answers, from, l.calls);
            var key := w.flights[id].key;
            && Feasible(w, retries, run)
            && var w' := Exec(w, retries, run);
               && w'.cache == (if l.fill.Some? then w.cache[key := l.fill.value] else w.cache)
               && id in w'.finished && w'.finished[id].result == l.result && |w'.finished[id].heard| == from + l.calls
    decreases retries - from
  {
    var l, a := LookupFrom(answers, from, retries), answers(from);
    var run := Asked(id, answers, from, l.calls);
    var w1 := Step(w, retries, Answered(id, a));
    if Conclusive(a) || from == retries {
      assert run == [Answered(id, a)] && run[1..] == [];
      assert Exec(w1, retries, []) == w1;
    } else {
      AskedIsLookup(w1, retries, id, answers, from + 1);
      assert run[1..] == Asked(id, answers, from + 1, l.calls - 1);
    }
  }

  /** A lookup that no other overlaps is one call of `lookupMx`: the same cache, result and number of resolver calls. */
  lemma AloneIsOneLookup(w: World, retries: nat, id: nat, key: string, force: bool, answers: nat -> Answer)
    requires Enabled(w, Begin(id, key, force))
    ensures var (cache, r, calls) := DoLookup(w.cache, retries, key, force, answers);
            var run := [Begin(id, key, force)] + Asked(id, answers, 0, calls);
            && Feasible(w, retries, run)
            && var w' := Exec(w, retries, run);
               w'.cache == cache && id in w'.finished && w'.finished[id].result == r && |w'.finished[id].heard| == calls
  {
    var w1 := Step(w, retries, Begin(id, key, force));
    var calls := DoLookup(w.cache, retries, key, force, answers).2;
    var run := [Begin(id, key, force)] + Asked(id, answers, 0, calls);
    assert run[1..] == Asked(id, answers, 0, calls);
    if id in w1.flights {
      AskedIsLookup(w1, retries, id, answers, 0);
    } else {
      assert Exec(w1, retries, []) == w1;
    }
  }

  // ----- where records come from -----

  /** The list is what normalisation makes of records that the resolver gave in one of these events. */
  ghost predicate Given(mx: seq<Mx>, events: seq<Event>) {
    exists k :: 0 <= k < |events| && events[k].Answered? && events[k].a.Records? && mx == NormalizeMxRecords(events[k].a.raw)
  }

  ghost predicate AllGiven(w: World, events: seq<Event>) {
    && (forall key :: key in w.cache && w.cache[key].mx != [] ==> Given(w.cache[key].mx, events))
    && (forall id :: id in w.finished && w.finished[id].result.Ok? ==> Given(w.finished[id].result.records, events))
  }

  lemma StepKeepsGiven(w: World, retries: nat, e: Event, events: seq<Event>)
    requires Enabled(w, e) && AllGiven(w, events) && e in events
    ensures AllGiven(Step(w, retries, e), events)
  {
    if e.Answered? && e.a.Records? {
      var k :| 0 <= k < |events| && events[k] == e;
      assert Given(NormalizeMxRecords(e.a.raw), events);
    }
  }

  lemma {:induction false} RunKeepsGiven(w: World, retries: nat, run: seq<Event>, events: seq<Event>)
    requires Feasible(w, retries, run) && AllGiven(w, events) && forall e :: e in run ==> e in events
    ensures AllGiven(Exec(w, retries, run), events)
    decreases |run|
  {
    if run != [] {
      StepKeepsGiven(w, retries, run[0], events);
      RunKeepsGiven(Step(w, retries, run[0]), retries, run[1..], events);
    }
  }

  /** The records of any lookup, cached or not, are some answer of the resolver, normalised. */
  lemma RecordsComeFromAnswers(retries: nat, run: seq<Event>, id: nat) returns (raw: seq<Mx>)
    requires Feasible(NO_LOOKUPS, retries, run) && id in Exec(NO_LOOKUPS, retries, run).finished
    requires Exec(NO_LOOKUPS, retries, run).finished[id].result.Ok?
    ensures Exec(NO_LOOKUPS, retries, run).finished[id].result.records == NormalizeMxRecords(raw)
    ensures exists e :: e in run && e.Answered? && e.a == Records(raw)
  {
    RunKeepsGiven(NO_LOOKUPS, retries, run, run);
    var mx := Exec(NO_LOOKUPS, retries, run).finished[id].result.records;
    var k :| 0 <= k < |run| && run[k].Answered? && run[k].a.Records? && mx == NormalizeMxRecords(run[k].a.raw);
    raw := run[k].a.raw;
  }

  // ----- the address check -----

  datatype AddrAnswer = Addrs(count: nat) | AddrTimeout | AddrFailed(code: Option<string>)

  function ErrorCodes(answers: seq<AddrAnswer>): seq<string> {
    if answers == [] then []
    else if answers[0].AddrFailed? && answers[0].code.Some? then [answers[0].code.value] + ErrorCodes(answers[1..])
    else ErrorCodes(answers[1..])
  }

  predicate Absent(code: string) {
    code == "ENOTFOUND" || code == "EAI_NONAME" || code == "ENODATA"
  }

  /** A host by its A and AAAA answers: (has an address, failed transiently). */
  function ResolveMxHostAddrs(a: AddrAnswer, aaaa: AddrAnswer): (bool, bool) {
    if a.Addrs? && a.count > 0 then (true, false)
    else if aaaa.Addrs? && aaaa.count > 0 then (true, false)
    else if a == AddrTimeout || aaaa == AddrTimeout then (false, true)
    else
      var codes := ErrorCodes([a, aaaa]);
      if |codes| >= 2 && forall i :: 0 <= i < |codes| ==> Absent(codes[i]) then (false, false)
      else (false, true)
  }

  /**
   * A host has an address when either record type has one, and without one it is given up
   * for good only when both are authoritatively absent.
   */
  lemma PermanentExactly(a: AddrAnswer, aaaa: AddrAnswer)
    ensures var (hasAddr, transient) := ResolveMxHostAddrs(a, aaaa);
            && (hasAddr <==> (a.Addrs? && a.count > 0) || (aaaa.Addrs? && aaaa.count > 0))
            && (!hasAddr && !transient <==>
                  && a.AddrFailed? && a.code in {Some("ENOTFOUND"), Some("EAI_NONAME"), Some("ENODATA")}
                  && aaaa.AddrFailed? && aaaa.code in {Some("ENOTFOUND"), Some("EAI_NONAME"), Some("ENODATA")})
            && !(hasAddr && transient)
  {
    var both := [a, aaaa];
    assert both[1..] == [aaaa] && both[1..][1..] == [];
    assert ErrorCodes([aaaa]) == if aaaa.AddrFailed? && aaaa.code.Some? then [aaaa.code.value] else [];
    var codes := ErrorCodes(both);
    if |codes| >= 2 {
      assert codes == [a.code.value, aaaa.code.value];
      assert Absent(codes[0]) == Absent(a.code.value) && Absent(codes[1]) == Absent(aaaa.code.value);
    }
  }

  datatype Addressability = Routable(exchanges: seq<string>) | AllFailed(anyTransient: bool)

  /** The positions of the hosts that have an address. */
  function RoutableIndices(n: nat, hosts: nat -> (bool, bool)): seq<nat> {
    if n == 0 then []
    else RoutableIndices(n - 1, hosts) + if hosts(n - 1).0 then [n - 1] else []
  }

  /** The routable hosts among the first `n`, in order. */
  function RoutableOf(exchanges: seq<string>, hosts: nat -> (bool, bool), n: nat): seq<string>
    requires n <= |exchanges|
  {
    if n == 0 then []
    else if hosts(n - 1).0 then RoutableOf(exchanges, hosts, n - 1) + [exchanges[n - 1]]
    else RoutableOf(exchanges, hosts, n - 1)
  }

  /** They are an order-preserving subsequence: the k-th is the exchange at the k-th routable position. */
  lemma {:induction false} RoutableAt(exchanges: seq<string>, hosts: nat -> (bool, bool), n: nat, k: nat)
    requires n <= |exchanges| && k < |RoutableIndices(n, hosts)|
    ensures |RoutableOf(exchanges, hosts, n)| == |RoutableIndices(n, hosts)|
    ensures RoutableIndices(n, hosts)[k] < n
    ensures RoutableOf(exchanges, hosts, n)[k] == exchanges[RoutableIndices(n, hosts)[k]]
  {
    RoutableLength(exchanges, hosts, n);
    if k < |RoutableIndices(n - 1, hosts)| {
      RoutableAt(exchanges, hosts, n - 1, k);
    } else {
      RoutableLength(exchanges, hosts, n - 1);
    }
  }

  lemma {:induction false} RoutableLength(exchanges: seq<string>, hosts: nat -> (bool, bool), n: nat)
    requires n <= |exchanges|
    ensures |RoutableOf(exchanges, hosts, n)| == |RoutableIndices(n, hosts)|
  {
    if n > 0 {
      RoutableLength(exchanges, hosts, n - 1);
    }
  }

  lemma {:induction false} RoutableLaw(n: nat, hosts: nat -> (bool, bool))
    ensures var idx := RoutableIndices(n, hosts);
            && (forall k :: 0 <= k < |idx| ==> idx[k] < n)
            && (forall j, k :: 0 <= j < k < |idx| ==> idx[j] < idx[k])
            && (forall i :: 0 <= i < n ==> (i in idx <==> hosts(i).0))
  {
    if n > 0 {
      RoutableLaw(n - 1, hosts);
    }
  }

  /** Among the first `n` hosts: did one fail transiently, did one fail permanently. */
  function Failures(n: nat, hosts: nat -> (bool, bool)): (bool, bool) {
    if n == 0 then (false, false)
    else
      var (transient, permanent) := Failures(n - 1, hosts);
      if hosts(n - 1).0 then (transient, permanent)
      else if hosts(n - 1).1 then (true, permanent)
      else (transient, true)
  }

  lemma {:induction false} FailuresLaw(n: nat, hosts: nat -> (bool, bool))
    ensures Failures(n, hosts).0 <==> exists i: nat :: i < n && !hosts(i).0 && hosts(i).1
    ensures Failures(n, hosts).1 <==> exists i: nat :: i < n && !hosts(i).0 && !hosts(i).1
  {
    if n > 0 {
      FailuresLaw(n - 1, hosts);
    }
  }

  method CheckMxExchangesAddressable(exchanges: seq<string>, hosts: nat -> (bool, bool)) returns (r: Addressability)
    ensures r.Routable? <==> exists i: nat :: i < |exchanges| && hosts(i).0
    ensures r.Routable? ==> r.exchanges == RoutableOf(exchanges, hosts, |exchanges|)
    ensures r.AllFailed? ==> (!r.anyTransient <==> exchanges != [] && forall i: nat :: i < |exchanges| ==> !hosts(i).1)
  {
    if |exchanges| == 0 {
      return AllFailed(true);
    }
    var routable: seq<string> := [];
    var anyTransient, anyPermanent := false, false;
    for i := 0 to |exchanges|
      invariant routable == RoutableOf(exchanges, hosts, i)
      invariant (anyTransient, anyPermanent) == Failures(i, hosts)
    {
      var (hasAddr, transient) := hosts(i);
      if hasAddr {
        routable := routable + [exchanges[i]];
      } else {
        if transient {
          anyTransient := true;
        } else {
          anyPermanent := true;
        }
      }
    }
    NoneRoutable(exchanges, hosts, |exchanges|);
    FailuresLaw(|exchanges|, hosts);
    if |routable| > 0 {
      return Routable(routable);
    }
    if anyTransient {
      return AllFailed(true);
    }
    // One of the two flags is set: the transient answer at the end of the source is never given.
    assert !hosts(0).1 && anyPermanent;
    return AllFailed(false);
  }

  lemma {:induction false} NoneRoutable(exchanges: seq<string>, hosts: nat -> (bool, bool), n: nat)
    requires n <= |exchanges|
    ensures RoutableOf(exchanges, hosts, n) == [] <==> forall i: nat :: i < n ==> !hosts(i).0
  {
    if n > 0 {
      NoneRoutable(exchanges, hosts, n - 1);
    }
  }

  // ----- end to end -----

  function Exchanges(records: seq<Mx>): seq<string> {
    seq(|records|, i requires 0 <= i < |records| => records[i].exchange)
  }

  /**
   * From the resolver to the wire: over any answer of the resolver, any pattern of address
   * answers and any behaviour of the servers, the hosts are contacted in non-decreasing
   * preference as the resolver gave it, equal preferences in its order, and no record of the
   * resolver stands behind two hosts. `place` tells the resolver's record of each host.
   */
  lemma ContactOrder(raw: seq<Mx>, hosts: nat -> (bool, bool), c: MxProbe.Config, oracle: (nat, nat) -> SmtpVerdict.SessionOutcome)
    returns (place: seq<nat>)
    requires MxProbe.RealSessions(oracle)
    ensures var list := NormalizeMxRecords(raw);
            var routable := RoutableOf(Exchanges(list), hosts, |list|);
            var s := MxProbe.Walk(c, |routable|, oracle, 0, 0, 0, SmtpVerdict.AllMxFailed).sessions;
            && |place| == |routable|
            && (forall h :: 0 <= h < |routable| ==> place[h] < |raw| && Canonical(routable[h], raw[place[h]].exchange))
            && (forall i :: 0 <= i < |s| ==> s[i].0 < |routable|)
            && (forall i, k :: 0 <= i < k < |s| ==>
                  && raw[place[s[i].0]].priority <= raw[place[s[k].0]].priority
                  && (s[i].0 != s[k].0 && raw[place[s[i].0]].priority == raw[place[s[k].0]].priority ==>
                        place[s[i].0] < place[s[k].0]))
            && (forall g, h :: 0 <= g < h < |routable| ==> place[g] != place[h])
  {
    place := HostPlaces(raw, hosts);
    var list := NormalizeMxRecords(raw);
    var n := |RoutableOf(Exchanges(list), hosts, |list|)|;
    var w := MxProbe.Walk(c, n, oracle, 0, 0, 0, SmtpVerdict.AllMxFailed);
    MxProbe.ProbeLaw(c, n, oracle);
    forall i, k | 0 <= i < k < |w.sessions| ensures w.sessions[i].0 <= w.sessions[k].0 < n {
      MxProbe.NeverBack(c, n, oracle, w, i, k);
    }
  }

  /** The resolver's records behind the routable hosts, which keep its order of preference. */
  lemma HostPlaces(raw: seq<Mx>, hosts: nat -> (bool, bool)) returns (place: seq<nat>)
    ensures var list := NormalizeMxRecords(raw);
            var routable := RoutableOf(Exchanges(list), hosts, |list|);
            && |place| == |routable|
            && (forall h :: 0 <= h < |routable| ==> place[h] < |raw| && Canonical(routable[h], raw[place[h]].exchange))
            && (forall g, h :: 0 <= g < h < |routable| ==>
                  && raw[place[g]].priority <= raw[place[h]].priority
                  && (raw[place[g]].priority == raw[place[h]].priority ==> place[g] < place[h]))
            && (forall g, h :: 0 <= g < h < |routable| ==> place[g] != place[h])
  {
    var list := NormalizeMxRecords(raw);
    var p := NormalizeLaw(raw);
    var idx := RoutableIndices(|list|, hosts);
    RoutableLaw(|list|, hosts);
    RoutableLength(Exchanges(list), hosts, |list|);
    place := seq(|idx|, h requires 0 <= h < |idx| && idx[h] < |p| => p[idx[h]]);
    forall h | 0 <= h < |idx| ensures RoutableOf(Exchanges(list), hosts, |list|)[h] == list[idx[h]].exchange {
      RoutableAt(Exchanges(list), hosts, |list|, h);
    }
  }
}
