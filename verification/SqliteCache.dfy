/** The table of the persistent cache, and the ten layers kept in it under prefixed keys. */
module SqliteCache {
  import opened Results
  import opened Text

  /** A row of `cache_kv`: the encoded value and the last millisecond at which it is readable. */
  datatype Row = Row(v: string, expiresAt: int)

  type Table = map<string, Row>

  datatype Layer =
    | ResultLayer | MxLayer | DomainLayer | DeadLayer | DisposableLayer | RoleLayer | CatchAllLayer
    | ProviderCooldownLayer | MxHealthLayer | MxPersistentLayer

  function Name(l: Layer): string {
    match l
    case ResultLayer => "res"
    case MxLayer => "mx"
    case DomainLayer => "domain"
    case DeadLayer => "dead"
    case DisposableLayer => "disposable"
    case RoleLayer => "role"
    case CatchAllLayer => "catchall"
    case ProviderCooldownLayer => "provider-cooldown"
    case MxHealthLayer => "mx-health"
    case MxPersistentLayer => "mx-persistent"
  }

  const LEGACY := "dns"

  /** The full key of an entry; addresses and lookup domains are used as given, other ids in lower case. */
  function Id(l: Layer, id: string): string {
    if l == ResultLayer || l == MxLayer then id else Lower(id)
  }

  function FullKey(name: string, id: string): string {
    name + ":" + id
  }

  // ----- statements -----

  function Purged(t: Table, now: int): Table {
    map k | k in t && t[k].expiresAt >= now :: t[k]
  }

  function Readable(t: Table, key: string, now: int): Option<string> {
    if key in t && t[key].expiresAt >= now then Some(t[key].v) else None
  }

  function Expiry(now: int, ttlMs: real): int {
    now + if ttlMs.Floor > 1 then ttlMs.Floor else 1
  }

  /** `LIKE` as SQLite has it: `%` for any text, `_` for any character, letters of either case alike. */
  predicate Like(s: string, pattern: string)
    decreases |pattern|, |s|
  {
    if pattern == "" then s == ""
    else if pattern[0] == '%' then Like(s, pattern[1..]) || (s != "" && Like(s[1..], pattern))
    else s != "" && (pattern[0] == '_' || LowerChar(pattern[0]) == LowerChar(s[0])) && Like(s[1..], pattern[1..])
  }

  function Without(t: Table, pattern: string): Table {
    map k | k in t && !Like(k, pattern) :: t[k]
  }

  /** The namespaces that can be cleared; the two names of the lookup cache clear the same rows. */
  datatype ClearType = All | Dns | Only(layer: Layer)

  function Cleared(t: Table, c: ClearType): Table {
    match c
    case All => map[]
    case Dns => Without(Without(t, "mx:%"), "dns:%")
    case Only(l) =>
      if l == MxLayer then Without(Without(t, "mx:%"), "dns:%") else Without(t, Name(l) + ":" + "%")
  }

  /** The readings of the clock one operation may take, in the order it takes them. */
  datatype Clock = Clock(purge: int, read: int, legacyPurge: int, legacyRead: int)

  class CacheTable {
    var kv: Table

    constructor ()
      ensures kv == map[]
    {
      kv := map[];
    }

    method PurgeExpired(now: int)
      modifies this
      ensures kv == Purged(old(kv), now)
    {
      kv := map k | k in kv && !(kv[k].expiresAt < now) :: kv[k];
    }

    method GetJson(fullKey: string, purgeAt: int, readAt: int) returns (v: Option<string>)
      modifies this
      ensures kv == Purged(old(kv), purgeAt)
      ensures v == Readable(kv, fullKey, readAt)
    {
      PurgeExpired(purgeAt);
      if fullKey in kv && kv[fullKey].expiresAt >= readAt {
        return Some(kv[fullKey].v);
      }
      return None;
    }

    method SetJson(fullKey: string, v: string, ttlMs: real, now: int)
      modifies this
      ensures kv == old(kv)[fullKey := Row(v, Expiry(now, ttlMs))]
    {
      var floor := ttlMs.Floor;
      kv := kv[fullKey := Row(v, now + if floor > 1 then floor else 1)];
    }

    /** The lookup cache reads its own row, or else the row an older release left. */
    method GetDns(domain: string, c: Clock) returns (v: Option<string>)
      modifies this
      ensures (kv, v) == GetOf(old(kv), MxLayer, domain, c)
    {
      v := GetJson(FullKey(Name(MxLayer), domain), c.purge, c.read);
      if v.None? {
        v := GetJson(FullKey(LEGACY, domain), c.legacyPurge, c.legacyRead);
      }
    }

    method Get(l: Layer, id: string, c: Clock) returns (v: Option<string>)
      modifies this
      ensures (kv, v) == GetOf(old(kv), l, id, c)
    {
      if l == MxLayer {
        v := GetDns(id, c);
      } else {
        v := GetJson(FullKey(Name(l), Id(l, id)), c.purge, c.read);
      }
    }

    method Set(l: Layer, id: string, v: string, ttlMs: real, now: int)
      modifies this
      ensures kv == SetOf(old(kv), l, id, v, ttlMs, now)
    {
      SetJson(FullKey(Name(l), Id(l, id)), v, ttlMs, now);
    }

    method Delete(l: Layer, id: string)
      modifies this
      ensures kv == DeleteOf(old(kv), l, id)
    {
      kv := kv - {FullKey(Name(l), Id(l, id))};
      if l == MxLayer {
        kv := kv - {FullKey(LEGACY, id)};
      }
    }

    method Clear(c: ClearType)
      modifies this
      ensures kv == Cleared(old(kv), c)
    {
      match c
      case All => kv := map[];
      case Dns => ClearLookups();
      case Only(l) =>
        if l == MxLayer {
          ClearLookups();
        } else {
          kv := map k | k in kv && !Like(k, Name(l) + ":" + "%") :: kv[k];
        }
    }

    method ClearLookups()
      modifies this
      ensures kv == Cleared(old(kv), Dns)
    {
      kv := map k | k in kv && !(Like(k, "mx:%") || Like(k, "dns:%")) :: kv[k];
    }
  }

  function GetOf(t: Table, l: Layer, id: string, c: Clock): (Table, Option<string>) {
    var t1 := Purged(t, c.purge);
    var v := Readable(t1, FullKey(Name(l), Id(l, id)), c.read);
    if l != MxLayer || v.Some? then (t1, v)
    else
      var t2 := Purged(t1, c.legacyPurge);
      (t2, Readable(t2, FullKey(LEGACY, id), c.legacyRead))
  }

  function SetOf(t: Table, l: Layer, id: string, v: string, ttlMs: real, now: int): Table {
    t[FullKey(Name(l), Id(l, id)) := Row(v, Expiry(now, ttlMs))]
  }

  function DeleteOf(t: Table, l: Layer, id: string): Table {
    var t' := t - {FullKey(Name(l), Id(l, id))};
    if l == MxLayer then t' - {FullKey(LEGACY, id)} else t'
  }
}
