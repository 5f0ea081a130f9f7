/** One table with prefixed keys and lazy purging refines ten independent expiring maps. */
module CacheLayers {
  import opened Results
  import opened Text
  import opened SqliteCache

  // ----- prefixes never collide -----

  lemma NamesAreDistinct(a: Layer, b: Layer)
    requires Name(a) == Name(b)
    ensures a == b
  {
  }

  predicate Word(s: string) {
    forall i :: 0 <= i < |s| ==> 'a' <= s[i] <= 'z' || s[i] == '-'
  }

  lemma NamesAreWords(l: Layer)
    ensures Word(Name(l)) && Name(l) != LEGACY
  {
  }

  lemma WordsArePlain(s: string)
    requires Word(s)
    ensures ':' !in s && Plain(s) && Lower(s) == s
  {
  }

  /** A full key determines its namespace and its id. */
  lemma KeysNeverCollide(a: string, x: string, b: string, y: string)
    requires ':' !in a && ':' !in b && FullKey(a, x) == FullKey(b, y)
    ensures a == b && x == y
  {
    SplitFirst(a, x, ':');
    SplitFirst(b, y, ':');
    assert Split(FullKey(a, x), ':')[0] == a && Split(FullKey(b, y), ':')[0] == b;
    assert FullKey(a, x)[|a| + 1..] == x && FullKey(b, y)[|b| + 1..] == y;
  }

  predicate Plain(p: string) {
    '%' !in p && '_' !in p
  }

  lemma {:induction false} LikeAny(s: string)
    ensures Like(s, "%")
  {
    if s != "" {
      LikeAny(s[1..]);
    }
  }

  /** A pattern of plain text and a final `%` matches the texts that begin with it, in either case. */
  lemma {:induction false} LikePrefix(s: string, p: string)
    requires Plain(p)
    ensures Like(s, p + "%") <==> |p| <= |s| && Lower(s[..|p|]) == Lower(p)
  {
    if p == "" {
      assert p + "%" == "%";
      LikeAny(s);
    } else if s != "" {
      LikePrefix(s[1..], p[1..]);
      assert (p + "%")[1..] == p[1..] + "%";
      if |p| <= |s| {
        LowerHead(s[..|p|], p);
        assert s[..|p|][1..] == s[1..][..|p| - 1];
      }
    }
  }

  lemma LowerHead(s: string, p: string)
    requires p != "" && |s| == |p|
    ensures Lower(s) == Lower(p) <==> LowerChar(s[0]) == LowerChar(p[0]) && Lower(s[1..]) == Lower(p[1..])
  {
    assert Lower(s) == [LowerChar(s[0])] + Lower(s[1..]);
    assert Lower(p) == [LowerChar(p[0])] + Lower(p[1..]);
    assert ([LowerChar(s[0])] + Lower(s[1..]))[1..] == Lower(s[1..]);
    assert ([LowerChar(p[0])] + Lower(p[1..]))[1..] == Lower(p[1..]);
  }

  /** Clearing a namespace touches exactly its own keys. */
  lemma ClearMatchesExactly(a: string, id: string, b: string)
    requires ':' !in a && ':' !in b && Plain(b) && Lower(a) == a && Lower(b) == b
    ensures Like(FullKey(a, id), b + ":" + "%") <==> a == b
  {
    var key, p := FullKey(a, id), b + ":";
    LikePrefix(key, p);
    assert Lower(p) == p;
    if a == b {
      assert key[..|p|] == p;
    } else if |p| <= |key| && Lower(key[..|p|]) == p {
      assert Lower(key) == FullKey(a, Lower(id));
      assert Lower(key) == FullKey(b, Lower(key[|p|..])) by {
        assert key == key[..|p|] + key[|p|..];
        assert Lower(key) == Lower(key[..|p|]) + Lower(key[|p|..]);
      }
      KeysNeverCollide(a, Lower(id), b, Lower(key[|p|..]));
      assert false;
    }
  }

  // ----- ten independent maps -----

  /** The layers as they are meant: an entry belongs to one layer, and only to it. */
  type Maps = map<(Layer, string), Row>

  /** One entry of the ten maps: addresses and lookup domains count as given, other ids whatever their case. */
  function Entry(l: Layer, id: string): (Layer, string) {
    (l, match l
        case ResultLayer => id
        case MxLayer => id
        case _ => Lower(id))
  }

  /** Which ids address one entry. */
  predicate SameEntry(a: Layer, x: string, b: Layer, y: string) {
    a == b && if a == ResultLayer || a == MxLayer then x == y else SameButCase(x, y)
  }

  /** Two ids address one entry of the ten maps, and one row of the table, exactly when they are the same, or but for their case. */
  lemma EntriesAre(a: Layer, x: string, b: Layer, y: string)
    ensures Entry(a, x) == Entry(b, y) <==> SameEntry(a, x, b, y)
    ensures FullKey(Name(a), Id(a, x)) == FullKey(Name(b), Id(b, y)) <==> SameEntry(a, x, b, y)
  {
    LowerLaw(x, y);
    SameName(a, Id(a, x), b, Id(b, y));
  }

  datatype Op =
    | Get(l: Layer, id: string, c: Clock)
    | Set(l: Layer, id: string, v: string, ttlMs: real, now: int)
    | Delete(l: Layer, id: string)
    | Clear(type_: ClearType)

  predicate Clears(c: ClearType, l: Layer) {
    match c
    case All => true
    case Dns => l == MxLayer
    case Only(l') => l == l'
  }

  /** One operation on the ten maps: nothing is ever purged. */
  function MapStep(m: Maps, op: Op): (Maps, Option<string>) {
    match op
    case Get(l, id, c) => (m, ReadableIn(m, Entry(l, id), c.read))
    case Set(l, id, v, ttlMs, now) => (m[Entry(l, id) := Row(v, Expiry(now, ttlMs))], None)
    case Delete(l, id) => (m - {Entry(l, id)}, None)
    case Clear(c) => (map k | k in m && !Clears(c, k.0) :: m[k], None)
  }

  function ReadableIn(m: Maps, e: (Layer, string), now: int): Option<string> {
    if e in m && m[e].expiresAt >= now then Some(m[e].v) else None
  }

  /** The same operation on the one table. */
  function TableStep(t: Table, op: Op): (Table, Option<string>) {
    match op
    case Get(l, id, c) => GetOf(t, l, id, c)
    case Set(l, id, v, ttlMs, now) => (SetOf(t, l, id, v, ttlMs, now), None)
    case Delete(l, id) => (DeleteOf(t, l, id), None)
    case Clear(c) => (Cleared(t, c), None)
  }

  // ----- the refinement -----

  /** A row readable at `now`, with the time it stays so. */
  function LiveRow(t: Table, key: string, now: int): Option<Row> {
    if key in t && t[key].expiresAt >= now then Some(t[key]) else None
  }

  function LiveEntry(m: Maps, l: Layer, id: string, now: int): Option<Row> {
    if (l, id) in m && m[(l, id)].expiresAt >= now then Some(m[(l, id)]) else None
  }

  ghost predicate Agree(t: Table, m: Maps, now: int) {
    forall l, id :: LiveRow(t, FullKey(Name(l), id), now) == LiveEntry(m, l, id, now)
  }

  ghost predicate NoLegacy(t: Table, now: int) {
    forall id :: LiveRow(t, FullKey(LEGACY, id), now) == None
  }

  ghost predicate Refines(t: Table, m: Maps, now: int) {
    Agree(t, m, now) && NoLegacy(t, now)
  }

  lemma EmptyRefines(now: int)
    ensures Refines(map[], map[], now)
  {
  }

  lemma RefinesLater(t: Table, m: Maps, now: int, later: int)
    requires Refines(t, m, now) && now <= later
    ensures Refines(t, m, later)
  {
    forall l, id ensures LiveRow(t, FullKey(Name(l), id), later) == LiveEntry(m, l, id, later) {
      assert LiveRow(t, FullKey(Name(l), id), now) == LiveEntry(m, l, id, now);
    }
    forall id ensures LiveRow(t, FullKey(LEGACY, id), later) == None {
      assert LiveRow(t, FullKey(LEGACY, id), now) == None;
    }
  }

  /** Purging is unobservable from its own moment on: no later reading of any key changes. */
  lemma PurgeUnobservable(t: Table, key: string, now: int, later: int)
    requires now <= later
    ensures LiveRow(Purged(t, now), key, later) == LiveRow(t, key, later)
    ensures Readable(Purged(t, now), key, later) == Readable(t, key, later)
  {
  }

  lemma PurgeRefines(t: Table, m: Maps, now: int)
    requires Refines(t, m, now)
    ensures Refines(Purged(t, now), m, now)
  {
    forall l, id ensures LiveRow(Purged(t, now), FullKey(Name(l), id), now) == LiveEntry(m, l, id, now) {
      PurgeUnobservable(t, FullKey(Name(l), id), now, now);
    }
    forall id ensures LiveRow(Purged(t, now), FullKey(LEGACY, id), now) == None {
      PurgeUnobservable(t, FullKey(LEGACY, id), now, now);
    }
  }

  lemma SameName(a: Layer, x: string, b: Layer, y: string)
    ensures FullKey(Name(a), x) == FullKey(Name(b), y) <==> a == b && x == y
    ensures FullKey(Name(a), x) != FullKey(LEGACY, y)
  {
    NamesAreWords(a);
    NamesAreWords(b);
    WordsArePlain(Name(a));
    WordsArePlain(Name(b));
    if FullKey(Name(a), x) == FullKey(Name(b), y) {
      KeysNeverCollide(Name(a), x, Name(b), y);
      NamesAreDistinct(a, b);
    }
    if FullKey(Name(a), x) == FullKey(LEGACY, y) {
      KeysNeverCollide(Name(a), x, LEGACY, y);
    }
  }

  predicate InOrder(c: Clock) {
    c.purge <= c.read <= c.legacyPurge <= c.legacyRead
  }

  lemma GetRefines(t: Table, m: Maps, clock: int, l: Layer, id: string, c: Clock)
    requires Refines(t, m, clock) && clock <= c.purge && InOrder(c)
    ensures GetOf(t, l, id, c).1 == MapStep(m, Get(l, id, c)).1
    ensures Refines(GetOf(t, l, id, c).0, m, c.legacyRead)
  {
    RefinesLater(t, m, clock, c.purge);
    PurgeRefines(t, m, c.purge);
    var t1 := Purged(t, c.purge);
    RefinesLater(t1, m, c.purge, c.read);
    assert LiveRow(t1, FullKey(Name(l), Id(l, id)), c.read) == LiveEntry(m, l, Id(l, id), c.read);
    assert Entry(l, id) == (l, Id(l, id));
    RefinesLater(t1, m, c.read, c.legacyPurge);
    PurgeRefines(t1, m, c.legacyPurge);
    RefinesLater(t1, m, c.read, c.legacyRead);
    RefinesLater(Purged(t1, c.legacyPurge), m, c.legacyPurge, c.legacyRead);
    assert LiveRow(Purged(t1, c.legacyPurge), FullKey(LEGACY, id), c.legacyRead) == None;
  }

  lemma SetRefines(t: Table, m: Maps, clock: int, l: Layer, id: string, v: string, ttlMs: real, now: int)
    requires Refines(t, m, clock) && clock <= now
    ensures Refines(SetOf(t, l, id, v, ttlMs, now), MapStep(m, Set(l, id, v, ttlMs, now)).0, now)
  {
    RefinesLater(t, m, clock, now);
    var t', m' := SetOf(t, l, id, v, ttlMs, now), MapStep(m, Set(l, id, v, ttlMs, now)).0;
    forall l', id' ensures LiveRow(t', FullKey(Name(l'), id'), now) == LiveEntry(m', l', id', now) {
      SameName(l', id', l, Id(l, id));
      assert LiveRow(t, FullKey(Name(l'), id'), now) == LiveEntry(m, l', id', now);
    }
    forall id' ensures LiveRow(t', FullKey(LEGACY, id'), now) == None {
      SameName(l, Id(l, id), l, id');
      assert LiveRow(t, FullKey(LEGACY, id'), now) == None;
    }
  }

  lemma DeleteRefines(t: Table, m: Maps, clock: int, l: Layer, id: string)
    requires Refines(t, m, clock)
    ensures Refines(DeleteOf(t, l, id), MapStep(m, Delete(l, id)).0, clock)
  {
    var t', m' := DeleteOf(t, l, id), MapStep(m, Delete(l, id)).0;
    forall l', id' ensures LiveRow(t', FullKey(Name(l'), id'), clock) == LiveEntry(m', l', id', clock) {
      SameName(l', id', l, Id(l, id));
      SameName(l', id', l', id);
      assert LiveRow(t, FullKey(Name(l'), id'), clock) == LiveEntry(m, l', id', clock);
    }
    forall id' ensures LiveRow(t', FullKey(LEGACY, id'), clock) == None {
      assert LiveRow(t, FullKey(LEGACY, id'), clock) == None;
    }
  }

  /** Each kind of clearing empties exactly its own layer. */
  lemma ClearExactly(t: Table, c: ClearType, l: Layer, id: string, now: int)
    ensures LiveRow(Cleared(t, c), FullKey(Name(l), id), now) == if Clears(c, l) then None else LiveRow(t, FullKey(Name(l), id), now)
  {
    NamesAreWords(l);
    WordsArePlain(Name(l));
    ClearPattern(l, id, MxLayer);
    assert "mx:%" == Name(MxLayer) + ":" + "%";
    ClearMatchesExactly(Name(l), id, LEGACY);
    assert "dns:%" == LEGACY + ":" + "%";
    if c.Only? {
      ClearPattern(l, id, c.layer);
    }
  }

  lemma ClearPattern(l: Layer, id: string, cleared: Layer)
    ensures Like(FullKey(Name(l), id), Name(cleared) + ":" + "%") <==> l == cleared
  {
    NamesAreWords(l);
    WordsArePlain(Name(l));
    NamesAreWords(cleared);
    WordsArePlain(Name(cleared));
    ClearMatchesExactly(Name(l), id, Name(cleared));
    if Name(l) == Name(cleared) {
      NamesAreDistinct(l, cleared);
    }
  }

  lemma ClearRefines(t: Table, m: Maps, clock: int, c: ClearType)
    requires Refines(t, m, clock)
    ensures Refines(Cleared(t, c), MapStep(m, Clear(c)).0, clock)
  {
    forall l, id ensures LiveRow(Cleared(t, c), FullKey(Name(l), id), clock) == LiveEntry(MapStep(m, Clear(c)).0, l, id, clock) {
      ClearExactly(t, c, l, id, clock);
      assert LiveRow(t, FullKey(Name(l), id), clock) == LiveEntry(m, l, id, clock);
    }
    forall id ensures LiveRow(Cleared(t, c), FullKey(LEGACY, id), clock) == None {
      assert LiveRow(t, FullKey(LEGACY, id), clock) == None;
    }
  }

  // ----- runs -----

  predicate NotBefore(op: Op, clock: int) {
    match op
    case Get(_, _, c) => clock <= c.purge && InOrder(c)
    case Set(_, _, _, _, now) => clock <= now
    case _ => true
  }

  function ClockAfter(op: Op, clock: int): int {
    match op
    case Get(_, _, c) => c.legacyRead
    case Set(_, _, _, _, now) => now
    case _ => clock
  }

  /** Operations under a clock that does not run backwards. */
  predicate Timely(ops: seq<Op>, clock: int)
    decreases |ops|
  {
    ops == [] || (NotBefore(ops[0], clock) && Timely(ops[1..], ClockAfter(ops[0], clock)))
  }

  function TableAnswers(t: Table, ops: seq<Op>): seq<Option<string>>
    decreases |ops|
  {
    if ops == [] then [] else [TableStep(t, ops[0]).1] + TableAnswers(TableStep(t, ops[0]).0, ops[1..])
  }

  function MapAnswers(m: Maps, ops: seq<Op>): seq<Option<string>>
    decreases |ops|
  {
    if ops == [] then [] else [MapStep(m, ops[0]).1] + MapAnswers(MapStep(m, ops[0]).0, ops[1..])
  }

  lemma StepRefines(t: Table, m: Maps, clock: int, op: Op)
    requires Refines(t, m, clock) && NotBefore(op, clock)
    ensures TableStep(t, op).1 == MapStep(m, op).1
    ensures Refines(TableStep(t, op).0, MapStep(m, op).0, ClockAfter(op, clock))
  {
    match op
    case Get(l, id, c) => GetRefines(t, m, clock, l, id, c);
    case Set(l, id, v, ttlMs, now) => SetRefines(t, m, clock, l, id, v, ttlMs, now);
    case Delete(l, id) => DeleteRefines(t, m, clock, l, id);
    case Clear(c) => ClearRefines(t, m, clock, c);
  }

  /**
   * Every run of gets, sets, deletes and clears, from related states on and under a clock
   * that does not run backwards, gets the same answers from the one table as from ten
   * independent maps that never purge.
   */
  lemma {:induction false} TableRefinesMaps(t: Table, m: Maps, clock: int, ops: seq<Op>)
    requires Refines(t, m, clock) && Timely(ops, clock)
    ensures TableAnswers(t, ops) == MapAnswers(m, ops)
    decreases |ops|
  {
    if ops != [] {
      StepRefines(t, m, clock, ops[0]);
      TableRefinesMaps(TableStep(t, ops[0]).0, MapStep(m, ops[0]).0, ClockAfter(ops[0], clock), ops[1..]);
    }
  }

  /** The same from an empty table. */
  lemma FreshTableIsTenMaps(clock: int, ops: seq<Op>)
    requires Timely(ops, clock)
    ensures TableAnswers(map[], ops) == MapAnswers(map[], ops)
  {
    EmptyRefines(clock);
    TableRefinesMaps(map[], map[], clock, ops);
  }

  // ----- what a reading says about the run -----

  /** The ten maps after a run. */
  function MapsAfter(ops: seq<Op>): Maps {
    if ops == [] then map[] else MapStep(MapsAfter(ops[..|ops| - 1]), ops[|ops| - 1]).0
  }

  /** The operation sets or forgets this entry. */
  predicate Touches(op: Op, l: Layer, id: string) {
    match op
    case Get(_, _, _) => false
    case Set(l', id', _, _, _) => SameEntry(l', id', l, id)
    case Delete(l', id') => SameEntry(l', id', l, id)
    case Clear(All) => true
    case Clear(Dns) => l == MxLayer
    case Clear(Only(l')) => l == l'
  }

  /** Operation `k` set this entry, and none after it touched the entry. */
  predicate LastSet(ops: seq<Op>, k: nat, l: Layer, id: string) {
    && k < |ops| && ops[k].Set? && SameEntry(ops[k].l, ops[k].id, l, id)
    && forall m :: k < m < |ops| ==> !Touches(ops[m], l, id)
  }

  /** A value set with this lifetime is still readable: within the lifetime, and for one millisecond at any rate. */
  predicate Within(setAt: int, ttlMs: real, now: int) {
    (now - setAt) as real <= ttlMs || now - setAt <= 1
  }

  lemma {:induction false} HeldEntry(ops: seq<Op>, l: Layer, id: string) returns (k: nat)
    ensures Entry(l, id) in MapsAfter(ops) ==>
              LastSet(ops, k, l, id) && MapsAfter(ops)[Entry(l, id)] == Row(ops[k].v, Expiry(ops[k].now, ops[k].ttlMs))
    ensures Entry(l, id) !in MapsAfter(ops) ==> forall i: nat :: !LastSet(ops, i, l, id)
  {
    k := 0;
    if ops != [] {
      var n := |ops| - 1;
      var op, front := ops[n], ops[..n];
      k := HeldEntry(front, l, id);
      TouchedOrNot(MapsAfter(front), op, l, id);
      if op.Set? && Touches(op, l, id) {
        k := n;
      } else {
        forall i: nat ensures LastSet(ops, i, l, id) <==> !Touches(op, l, id) && LastSet(front, i, l, id) {
          LastSetNext(ops, i, l, id);
        }
      }
    }
  }

  /** What one operation does to one entry. */
  lemma TouchedOrNot(m: Maps, op: Op, l: Layer, id: string)
    ensures var e, m' := Entry(l, id), MapStep(m, op).0;
            if !Touches(op, l, id) then (e in m' <==> e in m) && (e in m ==> m'[e] == m[e])
            else if op.Set? then e in m' && m'[e] == Row(op.v, Expiry(op.now, op.ttlMs))
            else e !in m'
  {
    if op.Set? || op.Delete? {
      EntriesAre(op.l, op.id, l, id);
    }
  }

  lemma LastSetNext(ops: seq<Op>, i: nat, l: Layer, id: string)
    requires ops != []
    requires var op := ops[|ops| - 1]; !(op.Set? && Touches(op, l, id))
    ensures LastSet(ops, i, l, id) <==> !Touches(ops[|ops| - 1], l, id) && LastSet(ops[..|ops| - 1], i, l, id)
  {
    var n := |ops| - 1;
    var front := ops[..n];
    if LastSet(ops, i, l, id) {
      assert i < n;
      assert forall m :: i < m < n ==> front[m] == ops[m];
    }
    if i < n && LastSet(front, i, l, id) && !Touches(ops[n], l, id) {
      forall m | i < m < |ops| ensures !Touches(ops[m], l, id) {
        assert m < n ==> front[m] == ops[m];
      }
    }
  }

  lemma LastSetIsOne(ops: seq<Op>, i: nat, k: nat, l: Layer, id: string)
    requires LastSet(ops, i, l, id) && LastSet(ops, k, l, id)
    ensures i == k
  {
  }

  function MapsFrom(m: Maps, ops: seq<Op>): Maps
    decreases |ops|
  {
    if ops == [] then m else MapsFrom(MapStep(m, ops[0]).0, ops[1..])
  }

  lemma {:induction false} LastAnswer(m: Maps, ops: seq<Op>, op: Op)
    ensures MapAnswers(m, ops + [op]) == MapAnswers(m, ops) + [MapStep(MapsFrom(m, ops), op).1]
    ensures MapsFrom(m, ops + [op]) == MapStep(MapsFrom(m, ops), op).0
    decreases |ops|
  {
    if ops == [] {
      assert ([] + [op])[1..] == [];
      assert MapAnswers(MapStep(m, op).0, []) == [];
      assert MapsFrom(MapStep(m, op).0, []) == MapStep(m, op).0;
    } else {
      LastAnswer(MapStep(m, ops[0]).0, ops[1..], op);
      assert (ops + [op])[1..] == ops[1..] + [op];
    }
  }

  lemma {:induction false} SameMaps(ops: seq<Op>)
    ensures MapsFrom(map[], ops) == MapsAfter(ops)
  {
    if ops != [] {
      SameMaps(ops[..|ops| - 1]);
      LastAnswer(map[], ops[..|ops| - 1], ops[|ops| - 1]);
      assert ops == ops[..|ops| - 1] + [ops[|ops| - 1]];
    }
  }

  /**
   * Over any run on a table that was empty, under a clock that does not run backwards, a get
   * finds the value of a set exactly when that set was of the same entry, no later operation
   * set, deleted or cleared that entry, and its lifetime has not passed; and otherwise it
   * finds nothing. The same entry means the same layer and the same id, in any case of its
   * letters for all layers but those of results and lookups.
   */
  lemma GetFindsLastSet(ops: seq<Op>, clock: int, l: Layer, id: string, c: Clock)
    requires Timely(ops + [Get(l, id, c)], clock)
    ensures |TableAnswers(map[], ops + [Get(l, id, c)])| == |ops| + 1
    ensures var v := TableAnswers(map[], ops + [Get(l, id, c)])[|ops|];
            && (forall k: nat :: LastSet(ops, k, l, id) ==>
                  v == if Within(ops[k].now, ops[k].ttlMs, c.read) then Some(ops[k].v) else None)
            && (v.Some? ==> exists k: nat :: LastSet(ops, k, l, id))
  {
    var get := Get(l, id, c);
    FreshTableIsTenMaps(clock, ops + [get]);
    LastAnswer(map[], ops, get);
    SameMaps(ops);
    AnswersLength(map[], ops);
    var held := HeldEntry(ops, l, id);
    forall k: nat | LastSet(ops, k, l, id)
      ensures MapStep(MapsAfter(ops), get).1 == if Within(ops[k].now, ops[k].ttlMs, c.read) then Some(ops[k].v) else None
    {
      LastSetIsOne(ops, k, held, l, id);
      WithinExpiry(ops[k].now, ops[k].ttlMs, c.read);
    }
  }

  lemma {:induction false} AnswersLength(m: Maps, ops: seq<Op>)
    ensures |MapAnswers(m, ops)| == |ops|
    decreases |ops|
  {
    if ops != [] {
      AnswersLength(MapStep(m, ops[0]).0, ops[1..]);
    }
  }

  lemma WithinExpiry(setAt: int, ttlMs: real, now: int)
    ensures Within(setAt, ttlMs, now) <==> Expiry(setAt, ttlMs) >= now
  {
  }

  // ----- rows of an older release -----

  /**
   * A table with rows of an older release is another matter: a lookup is answered as
   * by its own row exactly when that row is readable or no old row is. Otherwise an old row
   * shows again, even after a newer one has expired.
   */
  lemma LegacyShowsExactly(t: Table, id: string, c: Clock)
    requires InOrder(c)
    ensures var own, legacy := Readable(t, FullKey(Name(MxLayer), id), c.read), Readable(t, FullKey(LEGACY, id), c.legacyRead);
            && GetOf(t, MxLayer, id, c).1 == (if own.Some? then own else legacy)
            && (GetOf(t, MxLayer, id, c).1 == own <==> own.Some? || legacy.None?)
  {
  }

  /** Deleting a lookup, or clearing the lookups, forgets the row of an older release with it. */
  lemma LegacyIsForgotten(t: Table, id: string, c: Clock, clear: ClearType)
    requires InOrder(c)
    ensures GetOf(DeleteOf(t, MxLayer, id), MxLayer, id, c).1 == None
    ensures clear in {All, Dns, Only(MxLayer)} ==> GetOf(Cleared(t, clear), MxLayer, id, c).1 == None
  {
    SameName(MxLayer, id, MxLayer, id);
    ClearExactly(t, clear, MxLayer, id, c.read);
    ClearMatchesExactly(LEGACY, id, LEGACY);
    assert "dns:%" == LEGACY + ":" + "%";
  }
}
