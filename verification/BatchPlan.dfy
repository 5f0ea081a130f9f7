/** The sequential part of a batch before the limiters: one entry per address, grouped by domain. */
module BatchPlan {
  import opened Results
  import opened Sequences

  type Email = string

  datatype Opts = Opts(skipSmtp: Option<bool>, skipCatchAll: Option<bool>, forceRefresh: Option<bool>)

  datatype Row = Row(email: Email, opts: Opts)

  /** The addresses of one domain, under its grouping key. */
  datatype Entry = Entry(key: string, emails: seq<Email>)

  function Prefer<T>(a: Option<T>, b: Option<T>): Option<T> {
    if a.Some? then a else b
  }

  /** Options given with an item override those of the batch. */
  function Merge(batch: Opts, item: Opts): Opts {
    Opts(Prefer(item.skipSmtp, batch.skipSmtp), Prefer(item.skipCatchAll, batch.skipCatchAll),
         Prefer(item.forceRefresh, batch.forceRefresh))
  }

  function Emails(rows: seq<Row>): seq<Email> {
    if rows == [] then [] else Emails(rows[..|rows| - 1]) + [rows[|rows| - 1].email]
  }

  /** The members of `s`, each at its first occurrence. */
  function Unique(s: seq<string>): seq<string> {
    if s == [] then []
    else
      var u := Unique(s[..|s| - 1]);
      if s[|s| - 1] in u then u else u + [s[|s| - 1]]
  }

  function FirstIndex(s: seq<string>, x: string): (i: nat)
    requires x in s
    ensures i < |s| && s[i] == x
    ensures forall k :: 0 <= k < i ==> s[k] != x
  {
    if s[0] == x then 0 else 1 + FirstIndex(s[1..], x)
  }

  function KeysOf(s: seq<Email>, key: Email -> string): seq<string> {
    if s == [] then [] else KeysOf(s[..|s| - 1], key) + [key(s[|s| - 1])]
  }

  function WithKey(s: seq<Email>, key: Email -> string, k: string): seq<Email> {
    if s == [] then []
    else if key(s[|s| - 1]) == k then WithKey(s[..|s| - 1], key, k) + [s[|s| - 1]]
    else WithKey(s[..|s| - 1], key, k)
  }

  // ----- the dedupe loop -----

  lemma {:induction false} UniqueLaw(s: seq<string>)
    ensures Distinct(Unique(s))
    ensures forall x :: x in Unique(s) <==> x in s
  {
    if s != [] {
      UniqueLaw(s[..|s| - 1]);
      assert s == s[..|s| - 1] + [s[|s| - 1]];
    }
  }

  /** Unique keeps the order of first occurrence. */
  lemma {:induction false} UniqueKeepsOrder(s: seq<string>, i: nat, k: nat)
    requires i < k < |Unique(s)|
    ensures Unique(s)[i] in s && Unique(s)[k] in s
    ensures FirstIndex(s, Unique(s)[i]) < FirstIndex(s, Unique(s)[k])
  {
    UniqueLaw(s);
    var front, last := s[..|s| - 1], s[|s| - 1];
    assert s == front + [last];
    var u, f := Unique(s), Unique(front);
    UniqueLaw(front);
    var a, b := u[i], u[k];
    assert a == f[i] && a in f;
    FirstIndexInPrefix(front, s, a);
    if k < |f| {
      assert b == f[k] && b in f;
      UniqueKeepsOrder(front, i, k);
      FirstIndexInPrefix(front, s, b);
    } else {
      assert u[k] == last && last !in front;
      FirstIndexIs(s, last, |front|);
    }
  }

  lemma FirstIndexIs(s: seq<string>, x: string, i: nat)
    requires i < |s| && s[i] == x && forall k :: 0 <= k < i ==> s[k] != x
    ensures x in s && FirstIndex(s, x) == i
  {
    var j := FirstIndex(s, x);
    assert j <= i && i <= j;
  }

  lemma FirstIndexInPrefix(a: seq<string>, s: seq<string>, x: string)
    requires a <= s && x in a
    ensures x in s && FirstIndex(s, x) == FirstIndex(a, x)
  {
    var i := FirstIndex(a, x);
    assert forall k :: 0 <= k < |a| ==> a[k] == s[k];
    FirstIndexIs(s, x, i);
  }

  lemma {:induction false} EmailsLaw(rows: seq<Row>)
    ensures |Emails(rows)| == |rows|
    ensures forall i :: 0 <= i < |rows| ==> Emails(rows)[i] == rows[i].email
  {
    if rows != [] {
      EmailsLaw(rows[..|rows| - 1]);
    }
  }

  /** Each option is the row's where the row gives one, and the batch's otherwise. */
  predicate RowOverBatch(o: Opts, row: Opts, batch: Opts) {
    && o.skipSmtp == (if row.skipSmtp.Some? then row.skipSmtp else batch.skipSmtp)
    && o.skipCatchAll == (if row.skipCatchAll.Some? then row.skipCatchAll else batch.skipCatchAll)
    && o.forceRefresh == (if row.forceRefresh.Some? then row.forceRefresh else batch.forceRefresh)
  }

  /** No earlier row names the address of this one. */
  predicate FirstToName(rows: seq<Row>, f: nat)
    requires f < |rows|
  {
    forall k :: 0 <= k < f ==> rows[k].email != rows[f].email
  }

  ghost predicate Named(rows: seq<Row>, e: Email) {
    exists f :: 0 <= f < |rows| && rows[f].email == e
  }

  /** The options of the first row that names an address, over those of the batch. */
  ghost predicate FirstRowsKept(rows: seq<Row>, batch: Opts, firstSeen: map<Email, Opts>) {
    forall f :: 0 <= f < |rows| && FirstToName(rows, f) ==>
                  rows[f].email in firstSeen && RowOverBatch(firstSeen[rows[f].email], rows[f].opts, batch)
  }

  /** The map holds exactly the addresses of the rows, each with the options of its first row over those of the batch. */
  ghost predicate FirstRowWins(rows: seq<Row>, batch: Opts, firstSeen: map<Email, Opts>) {
    (forall e :: e in firstSeen <==> Named(rows, e)) && FirstRowsKept(rows, batch, firstSeen)
  }

  /** Every row has a first row with its address. */
  lemma FirstRowOf(rows: seq<Row>, j: nat) returns (f: nat)
    requires j < |rows|
    ensures f <= j && rows[f].email == rows[j].email && FirstToName(rows, f)
  {
    f := 0;
    while rows[f].email != rows[j].email
      invariant 0 <= f <= j
      invariant forall k :: 0 <= k < f ==> rows[k].email != rows[j].email
      decreases j - f
    {
      f := f + 1;
    }
  }

  lemma NamedNext(rows: seq<Row>, row: Row, e: Email)
    ensures Named(rows + [row], e) <==> Named(rows, e) || row.email == e
  {
    var all := rows + [row];
    assert all[|rows|] == row;
    if f :| 0 <= f < |rows| && rows[f].email == e {
      assert all[f].email == e;
    }
  }

  lemma FirstRowStays(rows: seq<Row>, batch: Opts, firstSeen: map<Email, Opts>, row: Row)
    requires FirstRowWins(rows, batch, firstSeen)
    ensures FirstRowWins(rows + [row], batch,
                         if row.email in firstSeen then firstSeen else firstSeen[row.email := Merge(batch, row.opts)])
  {
    var after := if row.email in firstSeen then firstSeen else firstSeen[row.email := Merge(batch, row.opts)];
    forall e ensures e in after <==> Named(rows + [row], e) {
      NamedNext(rows, row, e);
    }
    FirstRowsStay(rows, batch, firstSeen, row, after);
  }

  lemma FirstRowsStay(rows: seq<Row>, batch: Opts, firstSeen: map<Email, Opts>, row: Row, after: map<Email, Opts>)
    requires FirstRowsKept(rows, batch, firstSeen) && (row.email in firstSeen ==> Named(rows, row.email))
    requires after == if row.email in firstSeen then firstSeen else firstSeen[row.email := Merge(batch, row.opts)]
    ensures FirstRowsKept(rows + [row], batch, after)
  {
    var all := rows + [row];
    if row.email in firstSeen {
      var k :| 0 <= k < |rows| && rows[k].email == row.email;
      assert all[k].email == row.email && !FirstToName(all, |rows|);
    }
    forall f | 0 <= f < |all| && FirstToName(all, f)
      ensures all[f].email in after && RowOverBatch(after[all[f].email], all[f].opts, batch)
    {
      if f < |rows| {
        FirstInFront(rows, row, f);
      }
    }
  }

  lemma FirstInFront(rows: seq<Row>, row: Row, f: nat)
    requires f < |rows|
    ensures FirstToName(rows + [row], f) <==> FirstToName(rows, f)
  {
    var all := rows + [row];
    assert forall k :: 0 <= k <= f ==> all[k] == rows[k];
  }

  lemma NextRow(rows: seq<Row>, i: nat)
    requires i < |rows|
    ensures rows[..i + 1] == rows[..i] + [rows[i]]
    ensures var e, before := rows[i].email, Emails(rows[..i]);
            Unique(Emails(rows[..i + 1])) == if e in before then Unique(before) else Unique(before) + [e]
  {
    var before := Emails(rows[..i]);
    assert rows[..i + 1][..i] == rows[..i];
    assert Emails(rows[..i + 1]) == before + [rows[i].email];
    assert (before + [rows[i].email])[..|before|] == before;
    UniqueLaw(before);
  }

  method Dedupe(rows: seq<Row>, batch: Opts) returns (firstSeen: map<Email, Opts>, uniqueOrder: seq<Email>)
    ensures FirstRowWins(rows, batch, firstSeen)
    ensures uniqueOrder == Unique(Emails(rows))
  {
    firstSeen, uniqueOrder := map[], [];
    var i := 0;
    ghost var done: seq<Row> := [];
    while i < |rows|
      invariant 0 <= i <= |rows| && done == rows[..i]
      invariant FirstRowWins(done, batch, firstSeen)
      invariant uniqueOrder == Unique(Emails(done))
    {
      var row := rows[i];
      NextRow(rows, i);
      SeenIsUnique(done, batch, firstSeen, row.email);
      FirstRowStays(done, batch, firstSeen, row);
      if row.email !in firstSeen {
        firstSeen := firstSeen[row.email := Merge(batch, row.opts)];
        uniqueOrder := uniqueOrder + [row.email];
      }
      done := done + [row];
      i := i + 1;
    }
    assert rows[..i] == rows;
  }

  lemma SeenIsUnique(rows: seq<Row>, batch: Opts, firstSeen: map<Email, Opts>, e: Email)
    requires FirstRowWins(rows, batch, firstSeen)
    ensures e in firstSeen <==> e in Emails(rows)
  {
    EmailsLaw(rows);
    if Named(rows, e) {
      var f :| 0 <= f < |rows| && rows[f].email == e;
      assert Emails(rows)[f] == e;
    }
  }

  // ----- the grouping loop -----

  /** The insertion-ordered map `byDomain` after the addresses of `s`. */
  function GroupsOf(s: seq<Email>, key: Email -> string): seq<Entry> {
    if s == [] then [] else AddTo(GroupsOf(s[..|s| - 1], key), key(s[|s| - 1]), s[|s| - 1])
  }

  function AddTo(entries: seq<Entry>, k: string, e: Email): seq<Entry> {
    if entries == [] then [Entry(k, [e])]
    else if entries[0].key == k then [Entry(k, entries[0].emails + [e])] + entries[1..]
    else [entries[0]] + AddTo(entries[1..], k, e)
  }

  method GroupByDomain(uniqueOrder: seq<Email>, key: Email -> string) returns (byDomain: seq<Entry>)
    ensures byDomain == GroupsOf(uniqueOrder, key)
  {
    byDomain := [];
    var i := 0;
    while i < |uniqueOrder|
      invariant 0 <= i <= |uniqueOrder|
      invariant byDomain == GroupsOf(uniqueOrder[..i], key)
    {
      var email := uniqueOrder[i];
      var k := key(email);
      assert uniqueOrder[..i + 1][..i] == uniqueOrder[..i];
      var n := 0;
      while n < |byDomain| && byDomain[n].key != k
        invariant 0 <= n <= |byDomain|
        invariant forall m :: 0 <= m < n ==> byDomain[m].key != k
      {
        n := n + 1;
      }
      AddToAt(byDomain, k, email, n);
      if n < |byDomain| {
        byDomain := byDomain[n := Entry(k, byDomain[n].emails + [email])];
      } else {
        byDomain := byDomain + [Entry(k, [email])];
      }
      i := i + 1;
    }
    assert uniqueOrder[..i] == uniqueOrder;
  }

  lemma {:induction false} AddToAt(entries: seq<Entry>, k: string, e: Email, n: nat)
    requires n <= |entries| && forall m :: 0 <= m < n ==> entries[m].key != k
    requires n < |entries| ==> entries[n].key == k
    ensures AddTo(entries, k, e) ==
            if n < |entries| then entries[n := Entry(k, entries[n].emails + [e])] else entries + [Entry(k, [e])]
  {
    if n > 0 {
      AddToAt(entries[1..], k, e, n - 1);
    }
  }

  /**
   * The groups partition the addresses: one group a key, in the order in which
   * the keys first occur, holding exactly the addresses of that key in order.
   */
  lemma {:induction false} GroupsPartition(s: seq<Email>, key: Email -> string)
    ensures |GroupsOf(s, key)| == |Unique(KeysOf(s, key))|
    ensures forall n :: 0 <= n < |GroupsOf(s, key)| ==>
                          var entry := GroupsOf(s, key)[n];
                          entry.key == Unique(KeysOf(s, key))[n] && entry.emails == WithKey(s, key, entry.key)
  {
    if s != [] {
      var front, e := s[..|s| - 1], s[|s| - 1];
      var k, before, keys := key(e), GroupsOf(front, key), KeysOf(front, key);
      GroupsPartition(front, key);
      UniqueLaw(keys);
      assert KeysOf(s, key)[..|keys|] == keys;
      var n := if k in Unique(keys) then FirstIndex(Unique(keys), k) else |before|;
      assert forall m :: 0 <= m < |before| ==> before[m].key == Unique(keys)[m];
      AddToAt(before, k, e, n);
      if n == |before| {
        NoneWithKey(front, key, k);
      }
    }
  }

  lemma {:induction false} NoneWithKey(s: seq<Email>, key: Email -> string, k: string)
    requires k !in KeysOf(s, key)
    ensures WithKey(s, key, k) == []
  {
    if s != [] {
      NoneWithKey(s[..|s| - 1], key, k);
    }
  }

  lemma {:induction false} KeysOfMembers(s: seq<Email>, key: Email -> string)
    ensures |KeysOf(s, key)| == |s| && forall i :: 0 <= i < |s| ==> KeysOf(s, key)[i] == key(s[i])
    ensures forall e :: e in s ==> key(e) in KeysOf(s, key)
  {
    if s != [] {
      KeysOfMembers(s[..|s| - 1], key);
      assert s == s[..|s| - 1] + [s[|s| - 1]];
    }
  }

  lemma {:induction false} WithKeyLaw(s: seq<Email>, key: Email -> string, k: string)
    ensures forall e :: e in WithKey(s, key, k) <==> e in s && key(e) == k
    ensures Distinct(s) ==> Distinct(WithKey(s, key, k))
  {
    if s != [] {
      WithKeyLaw(s[..|s| - 1], key, k);
      assert s == s[..|s| - 1] + [s[|s| - 1]];
    }
  }

  /** `place` lists, in order, exactly the positions at which the addresses with this key stand. */
  lemma {:induction false} WithKeyKeepsOrder(s: seq<Email>, key: Email -> string, k: string) returns (place: seq<nat>)
    ensures |place| == |WithKey(s, key, k)|
    ensures forall i :: 0 <= i < |place| ==> place[i] < |s| && WithKey(s, key, k)[i] == s[place[i]]
    ensures forall i, j :: 0 <= i < j < |place| ==> place[i] < place[j]
    ensures forall m :: 0 <= m < |s| ==> (m in place <==> key(s[m]) == k)
  {
    if s == [] {
      place := [];
    } else {
      var n := |s| - 1;
      place := WithKeyKeepsOrder(s[..n], key, k);
      if key(s[n]) == k {
        place := place + [n];
      }
      assert forall m :: 0 <= m < n ==> s[..n][m] == s[m];
    }
  }
}
