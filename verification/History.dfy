/** history_store.rs: one ring of recent readings per entity in front of a table of all readings. */
module History {
  import opened Text

  datatype Entry = Entry(ts: nat, value: real)

  datatype Row = Row(id: string, entry: Entry)

  // ---------------------------------------------------------------------------
  // One ring
  // ---------------------------------------------------------------------------

  datatype RingBuffer = RingBuffer(entries: seq<Entry>, capacity: nat) {

    /** Popping from an empty deque does nothing, so a ring of capacity 0 still keeps one entry. */
    function Push(e: Entry): RingBuffer {
      var rest := if |entries| >= capacity && entries != [] then entries[1..] else entries;
      RingBuffer(rest + [e], capacity)
    }

    /** Newest first, at most n, then turned around again. */
    function Recent(n: nat): seq<Entry> {
      var newestFirst := Reversed(entries);
      Reversed(if |newestFirst| <= n then newestFirst else newestFirst[..n])
    }
  }

  function Reversed<T>(s: seq<T>): (r: seq<T>)
    ensures |r| == |s| && forall k :: 0 <= k < |s| ==> r[k] == s[|s| - 1 - k]
  {
    if s == [] then [] else Reversed(s[1..]) + [s[0]]
  }

  function Kept(capacity: nat): nat {
    if capacity == 0 then 1 else capacity
  }

  /** The ring is the last `capacity` entries of the log, at any capacity but 0, where it is the last one. */
  predicate Mirrors(ring: RingBuffer, log: seq<Entry>) {
    ring.entries == LastN(log, Kept(ring.capacity))
  }

  lemma PushMirrors(ring: RingBuffer, log: seq<Entry>, e: Entry)
    requires Mirrors(ring, log)
    ensures Mirrors(ring.Push(e), log + [e])
  {
  }

  lemma RecentIsSuffix(ring: RingBuffer, n: nat)
    ensures ring.Recent(n) == LastN(ring.entries, n)
  {
    var r, s := ring.Recent(n), LastN(ring.entries, n);
    assert |r| == |s| && forall k :: 0 <= k < |s| ==> r[k] == s[k];
  }

  lemma LastOfLast<T>(s: seq<T>, m: nat, n: nat)
    ensures LastN(LastN(s, m), n) == LastN(s, if n < m then n else m)
  {
  }

  /** last_n is the suffix of the whole log, oldest first, as far as the ring reaches. */
  lemma RecentIsSuffixOfLog(ring: RingBuffer, log: seq<Entry>, n: nat)
    requires Mirrors(ring, log)
    ensures ring.Recent(n) == LastN(log, if n < Kept(ring.capacity) then n else Kept(ring.capacity))
  {
    RecentIsSuffix(ring, n);
    LastOfLast(log, Kept(ring.capacity), n);
  }

  // ---------------------------------------------------------------------------
  // Readings of one entity, and readings of one second
  // ---------------------------------------------------------------------------

  function Of(rows: seq<Row>, id: string): seq<Entry> {
    if rows == [] then []
    else
      var before := Of(rows[..|rows| - 1], id);
      if rows[|rows| - 1].id == id then before + [rows[|rows| - 1].entry] else before
  }

  function At(entries: seq<Entry>, t: nat): seq<Entry> {
    if entries == [] then []
    else if entries[0].ts == t then [entries[0]] + At(entries[1..], t)
    else At(entries[1..], t)
  }

  predicate Sorted(entries: seq<Entry>) {
    forall i, j :: 0 <= i < j < |entries| ==> entries[i].ts <= entries[j].ts
  }

  lemma {:induction false} AtIsThere(entries: seq<Entry>, t: nat)
    ensures At(entries, t) == [] <==> forall e :: e in entries ==> e.ts != t
  {
    if entries != [] {
      AtIsThere(entries[1..], t);
      assert entries == [entries[0]] + entries[1..];
    }
  }

  /** A sorted list is determined by its readings of each second. */
  lemma {:induction false} SortedIsUnique(a: seq<Entry>, b: seq<Entry>)
    requires Sorted(a) && Sorted(b)
    requires forall t :: At(a, t) == At(b, t)
    ensures a == b
  {
    if a == [] || b == [] {
      if a != [] {
        AtIsThere(a, a[0].ts);
      }
      if b != [] {
        AtIsThere(b, b[0].ts);
      }
    } else {
      var t, u := a[0].ts, b[0].ts;
      AtIsThere(a, t);
      AtIsThere(b, t);
      AtIsThere(a, u);
      AtIsThere(b, u);
      assert At(a, t) == At(b, t) && At(a, u) == At(b, u);
      assert t == u && a[0] == At(a, t)[0] == At(b, t)[0] == b[0];
      forall s ensures At(a[1..], s) == At(b[1..], s) {
        assert At(a[1..], s) == if s == t then At(a, s)[1..] else At(a, s);
        assert At(b[1..], s) == if s == t then At(b, s)[1..] else At(b, s);
        assert At(a, s) == At(b, s);
      }
      SortedIsUnique(a[1..], b[1..]);
      assert a == [a[0]] + a[1..] && b == [b[0]] + b[1..];
    }
  }

  // ---------------------------------------------------------------------------
  // The store
  // ---------------------------------------------------------------------------

  /** The table has received every reading of the log. Writes run on other threads and may land in any order. */
  ghost predicate Received(table: seq<Row>, log: seq<Row>) {
    forall id, t :: multiset(At(Of(table, id), t)) == multiset(At(Of(log, id), t))
  }

  /** From a second on, the entity's readings of each second landed in order. */
  ghost predicate LandedInOrder(table: seq<Row>, log: seq<Row>, id: string, since: nat) {
    forall t: nat :: t >= since ==> At(Of(table, id), t) == At(Of(log, id), t)
  }

  /** What `ORDER BY entity_id, ts` promises of each entity's rows, ties being in row order. */
  ghost predicate AnswersOrdered(answer: seq<Row>, table: seq<Row>) {
    forall id :: Sorted(Of(answer, id)) && forall t :: At(Of(answer, id), t) == At(Of(table, id), t)
  }

  /** What the query of `since` promises. */
  ghost predicate AnswersSince(answer: seq<Entry>, table: seq<Row>, id: string, since: nat) {
    && Sorted(answer)
    && forall t: nat :: At(answer, t) == if t >= since then At(Of(table, id), t) else []
  }

  function Since(entries: seq<Entry>, since: nat): seq<Entry> {
    if entries == [] then []
    else if entries[0].ts >= since then [entries[0]] + Since(entries[1..], since)
    else Since(entries[1..], since)
  }

  /** Each ring mirrors its entity's readings, and exactly the entities with readings have one. */
  ghost predicate RingsMirror(inner: map<string, RingBuffer>, capacity: nat, log: seq<Row>) {
    forall id :: if id in inner
      then inner[id].capacity == capacity && Of(log, id) != [] && Mirrors(inner[id], Of(log, id))
      else Of(log, id) == []
  }

  class HistoryStore {
    var inner: map<string, RingBuffer>
    const capacity: nat
    const hasDb: bool
    ghost var log: seq<Row>
    /** Writes to the table that are on their way. */
    var pending: seq<Row>

    ghost predicate Valid()
      reads this
    {
      RingsMirror(inner, capacity, log)
    }

    /** HistoryStore::new: no table. */
    constructor InMemory(capacity: nat)
      ensures Valid() && log == [] && this.capacity == capacity && !hasDb && pending == []
    {
      this.capacity := capacity;
      hasDb := false;
      inner := map[];
      pending := [];
      log := [];
    }

    /** try_open: warm the rings from the ordered table, row by row. */
    constructor Open(capacity: nat, answer: seq<Row>)
      ensures Valid() && log == answer && this.capacity == capacity && hasDb && pending == []
    {
      this.capacity := capacity;
      hasDb := true;
      inner := map[];
      pending := [];
      log := [];
      new;
      var i := 0;
      while i < |answer|
        invariant i <= |answer| && Valid() && log == answer[..i] && pending == []
      {
        assert answer[..i + 1] == answer[..i] + [answer[i]];
        PushRow(answer[i]);
        i := i + 1;
      }
      assert answer[..i] == answer;
    }

    method PushRow(row: Row)
      requires Valid()
      modifies this`inner, this`log
      ensures Valid() && log == old(log) + [row]
    {
      var ring := if row.id in inner then inner[row.id] else RingBuffer([], capacity);
      PushMirrors(ring, Of(log, row.id), row.entry);
      log := log + [row];
      inner := inner[row.id := ring.Push(row.entry)];
      assert log[..|log| - 1] == old(log);
    }

    /** record: into the ring at once, into the table later. `now` is the clock. */
    method Record(id: string, value: real, now: nat)
      requires Valid()
      modifies this
      ensures Valid() && log == old(log) + [Row(id, Entry(now, value))]
      ensures pending == old(pending) + if hasDb then [Row(id, Entry(now, value))] else []
    {
      PushRow(Row(id, Entry(now, value)));
      if hasDb {
        pending := pending + [Row(id, Entry(now, value))];
      }
    }

    method LastReadings(id: string, n: nat) returns (r: seq<Entry>)
      requires Valid()
      ensures r == LastN(Of(log, id), if n < Kept(capacity) then n else Kept(capacity))
    {
      r := [];
      if id in inner {
        RecentIsSuffixOfLog(inner[id], Of(log, id), n);
        r := inner[id].Recent(n);
      }
    }

    /** The fallback of `since` when there is no table or its query fails. */
    method SinceInMemory(id: string, since: nat) returns (r: seq<Entry>)
      requires Valid()
      ensures r == Since(LastN(Of(log, id), Kept(capacity)), since)
    {
      r := [];
      if id in inner {
        r := Since(inner[id].entries, since);
      }
    }
  }

  // ---------------------------------------------------------------------------
  // Restart and the two answers of `since`
  // ---------------------------------------------------------------------------

  /** How many readings are newer than t. */
  function Newer(entries: seq<Entry>, t: nat): nat {
    if entries == [] then 0 else (if entries[0].ts > t then 1 else 0) + Newer(entries[1..], t)
  }

  /** How many of the readings of second t are among the last n. */
  function Room(entries: seq<Entry>, t: nat, n: nat): nat {
    if Newer(entries, t) < n then n - Newer(entries, t) else 0
  }

  lemma {:induction false} CountByAge(entries: seq<Entry>, t: nat)
    ensures |At(entries, t)| + Newer(entries, t) <= |entries|
    ensures (forall e :: e in entries ==> e.ts >= t) ==> |At(entries, t)| + Newer(entries, t) == |entries|
  {
    if entries != [] {
      CountByAge(entries[1..], t);
    }
  }

  lemma {:induction false} NoneNewer(entries: seq<Entry>, t: nat)
    ensures Newer(entries, t) == 0 <==> forall e :: e in entries ==> e.ts <= t
  {
    if entries != [] {
      NoneNewer(entries[1..], t);
      assert entries == [entries[0]] + entries[1..];
    }
  }

  lemma {:induction false} CountsAppend(a: seq<Entry>, b: seq<Entry>, t: nat)
    ensures At(a + b, t) == At(a, t) + At(b, t) && Newer(a + b, t) == Newer(a, t) + Newer(b, t)
  {
    if a == [] {
      assert a + b == b;
    } else {
      CountsAppend(a[1..], b, t);
      assert (a + b)[1..] == a[1..] + b && (a + b)[0] == a[0];
      Regroup([a[0]], At(a[1..], t), At(b, t));
    }
  }

  /** Behind a sorted list the readings of second t either all fit or fill the room the newer ones leave. */
  lemma SecondAtBorder(evicted: seq<Entry>, kept: seq<Entry>, t: nat)
    requires forall d, e :: d in evicted && e in kept ==> d.ts <= e.ts
    ensures At(evicted, t) == [] ==> At(kept, t) == [] || |At(kept, t)| + Newer(evicted, t) + Newer(kept, t) <= |kept|
    ensures At(evicted, t) != [] && Newer(evicted, t) == 0 ==> |At(kept, t)| + Newer(kept, t) == |kept|
    ensures At(evicted, t) != [] && Newer(evicted, t) != 0 ==>
      At(kept, t) == [] && Newer(evicted, t) + Newer(kept, t) >= |kept|
  {
    AtIsThere(evicted, t);
    AtIsThere(kept, t);
    NoneNewer(evicted, t);
    CountByAge(kept, t);
    if Newer(evicted, t) != 0 {
      AllNewer(kept, t);
    }
  }

  lemma {:induction false} AllNewer(entries: seq<Entry>, t: nat)
    ensures (forall e :: e in entries ==> e.ts > t) ==> Newer(entries, t) == |entries|
  {
    if entries != [] {
      AllNewer(entries[1..], t);
    }
  }

  /** What a ring keeps of one second: the last readings of that second, as far as there is room. */
  lemma AtOfLast(entries: seq<Entry>, t: nat, n: nat)
    requires Sorted(entries)
    ensures At(LastN(entries, n), t) == LastN(At(entries, t), Room(entries, t, n))
  {
    if |entries| <= n {
      CountByAge(entries, t);
    } else {
      var evicted, kept := entries[..|entries| - n], LastN(entries, n);
      assert entries == evicted + kept;
      CountsAppend(evicted, kept, t);
      SecondAtBorder(evicted, kept, t);
    }
  }

  /** The times of the readings alone. */
  function Stamps(entries: seq<Entry>): (r: seq<Entry>)
    ensures |r| == |entries| && forall k :: 0 <= k < |r| ==> r[k] == Entry(entries[k].ts, 0.0)
  {
    if entries == [] then [] else [Entry(entries[0].ts, 0.0)] + Stamps(entries[1..])
  }

  lemma {:induction false} StampsAt(entries: seq<Entry>, t: nat)
    ensures At(Stamps(entries), t) == Stamps(At(entries, t)) && Newer(Stamps(entries), t) == Newer(entries, t)
    ensures forall e :: e in At(entries, t) ==> e.ts == t
  {
    if entries != [] {
      StampsAt(entries[1..], t);
    }
  }

  /** Sorted lists with equally many readings of each second have the same times. */
  lemma SameTimes(a: seq<Entry>, b: seq<Entry>)
    requires Sorted(a) && Sorted(b) && forall t :: |At(a, t)| == |At(b, t)|
    ensures |a| == |b| && forall t :: Newer(a, t) == Newer(b, t)
  {
    forall t ensures At(Stamps(a), t) == At(Stamps(b), t) && Newer(Stamps(a), t) == Newer(a, t)
                     && Newer(Stamps(b), t) == Newer(b, t) {
      StampsAt(a, t);
      StampsAt(b, t);
      assert |At(a, t)| == |At(b, t)|;
    }
    SortedIsUnique(Stamps(a), Stamps(b));
  }

  lemma OrderedTimes(log: seq<Row>, table: seq<Row>, answer: seq<Row>, id: string)
    requires Sorted(Of(log, id)) && Received(table, log) && AnswersOrdered(answer, table)
    ensures |Of(answer, id)| == |Of(log, id)| && forall t :: Newer(Of(answer, id), t) == Newer(Of(log, id), t)
  {
    forall t ensures |At(Of(answer, id), t)| == |At(Of(log, id), t)| {
      assert At(Of(answer, id), t) == At(Of(table, id), t);
      SameMembers(At(Of(table, id), t), At(Of(log, id), t));
    }
    SameTimes(Of(answer, id), Of(log, id));
  }

  /** The kept readings of second t came to the table in the order they were made. */
  predicate KeptInOrder(table: seq<Row>, log: seq<Row>, id: string, t: nat, kept: nat) {
    var room := Room(Of(log, id), t, kept);
    LastN(At(Of(table, id), t), room) == LastN(At(Of(log, id), t), room)
  }

  lemma RingRebuilds(log: seq<Row>, table: seq<Row>, answer: seq<Row>, id: string, kept: nat)
    requires Sorted(Of(log, id)) && Received(table, log) && AnswersOrdered(answer, table)
    ensures LastN(Of(answer, id), kept) == LastN(Of(log, id), kept) <==>
      forall t :: KeptInOrder(table, log, id, t, kept)
  {
    var a, b := LastN(Of(answer, id), kept), LastN(Of(log, id), kept);
    OrderedTimes(log, table, answer, id);
    forall t ensures At(a, t) == At(b, t) <==> KeptInOrder(table, log, id, t, kept) {
      AtOfLast(Of(answer, id), t, kept);
      AtOfLast(Of(log, id), t, kept);
      assert At(Of(answer, id), t) == At(Of(table, id), t);
    }
    if forall t :: KeptInOrder(table, log, id, t, kept) {
      SortedIsUnique(a, b);
    }
  }

  /** A store opened over the ordered table has the rings of the store that wrote it, whatever order the writes
      landed in, except that kept readings of one entity and one second must have landed in order. */
  lemma WarmUpRebuilds(log: seq<Row>, table: seq<Row>, answer: seq<Row>, capacity: nat,
                       written: map<string, RingBuffer>, warmed: map<string, RingBuffer>)
    requires forall id :: Sorted(Of(log, id))
    requires Received(table, log) && AnswersOrdered(answer, table)
    requires RingsMirror(written, capacity, log) && RingsMirror(warmed, capacity, answer)
    ensures warmed == written <==> forall id, t :: KeptInOrder(table, log, id, t, Kept(capacity))
  {
    forall id
      ensures id in warmed <==> id in written
      ensures (id in warmed ==> warmed[id] == written[id]) <==>
        forall t :: KeptInOrder(table, log, id, t, Kept(capacity))
    {
      OrderedTimes(log, table, answer, id);
      RingRebuilds(log, table, answer, id, Kept(capacity));
      assert |Of(answer, id)| == |Of(log, id)|;
    }
    assert (forall id :: id in warmed ==> warmed[id] == written[id]) ==> warmed == written;
  }

  lemma {:induction false} SinceKeeps(entries: seq<Entry>, since: nat, t: nat)
    ensures At(Since(entries, since), t) == if t >= since then At(entries, t) else []
  {
    if entries != [] {
      SinceKeeps(entries[1..], since, t);
    }
  }

  lemma {:induction false} SinceMembers(entries: seq<Entry>, since: nat)
    ensures forall e :: e in Since(entries, since) <==> e in entries && e.ts >= since
  {
    if entries != [] {
      SinceMembers(entries[1..], since);
      assert entries == [entries[0]] + entries[1..];
    }
  }

  lemma {:induction false} SinceSorted(entries: seq<Entry>, since: nat)
    requires Sorted(entries)
    ensures Sorted(Since(entries, since))
  {
    if entries != [] {
      SinceSorted(entries[1..], since);
      SinceMembers(entries[1..], since);
    }
  }

  lemma {:induction false} SinceAppends(a: seq<Entry>, b: seq<Entry>, since: nat)
    ensures Since(a + b, since) == Since(a, since) + Since(b, since)
  {
    if a == [] {
      assert a + b == b;
    } else {
      SinceAppends(a[1..], b, since);
      assert (a + b)[1..] == a[1..] + b && (a + b)[0] == a[0];
    }
  }

  /** The table answers with the log's entries at or after the bound, in order, exactly when those of one second
      landed in order. */
  lemma TableAnswersLikeLog(log: seq<Row>, table: seq<Row>, answer: seq<Entry>, id: string, since: nat)
    requires Sorted(Of(log, id)) && AnswersSince(answer, table, id, since)
    ensures answer == Since(Of(log, id), since) <==> LandedInOrder(table, log, id, since)
  {
    var asked := Since(Of(log, id), since);
    SinceSorted(Of(log, id), since);
    forall t: nat ensures At(asked, t) == (if t >= since then At(Of(log, id), t) else [])
                          && At(answer, t) == (if t >= since then At(Of(table, id), t) else []) {
      SinceKeeps(Of(log, id), since, t);
    }
    if LandedInOrder(table, log, id, since) {
      forall t: nat ensures At(answer, t) == At(asked, t) {
        assert t >= since ==> At(Of(table, id), t) == At(Of(log, id), t);
      }
      SortedIsUnique(answer, asked);
    } else {
      var t: nat :| t >= since && At(Of(table, id), t) != At(Of(log, id), t);
      assert At(answer, t) != At(asked, t);
    }
  }

  /** In any case it has as many of them. */
  lemma TableAnswersAll(log: seq<Row>, table: seq<Row>, answer: seq<Entry>, id: string, since: nat)
    requires Sorted(Of(log, id)) && Received(table, log) && AnswersSince(answer, table, id, since)
    ensures |answer| == |Since(Of(log, id), since)|
  {
    var asked := Since(Of(log, id), since);
    SinceSorted(Of(log, id), since);
    forall t ensures |At(answer, t)| == |At(asked, t)| {
      SinceKeeps(Of(log, id), since, t);
      SameMembers(At(Of(table, id), t), At(Of(log, id), t));
    }
    SameTimes(answer, asked);
  }

  /** The two answers of `since` are equal exactly when the newest evicted entry is older than the bound and the
      readings of one second landed in order. */
  lemma FallbackAgreesUnlessEvicted(log: seq<Row>, table: seq<Row>, answer: seq<Entry>, id: string, since: nat,
                                    kept: nat)
    requires Sorted(Of(log, id)) && Received(table, log) && AnswersSince(answer, table, id, since)
    ensures var entries := Of(log, id);
      Since(LastN(entries, kept), since) == answer <==>
        && (|entries| <= kept || entries[|entries| - kept - 1].ts < since)
        && LandedInOrder(table, log, id, since)
  {
    TableAnswersLikeLog(log, table, answer, id, since);
    TableAnswersAll(log, table, answer, id, since);
    var entries := Of(log, id);
    if |entries| > kept {
      var evicted := entries[..|entries| - kept];
      assert entries == evicted + LastN(entries, kept);
      SinceAppends(evicted, LastN(entries, kept), since);
      NothingSince(evicted, since);
    }
  }

  lemma NothingSince(entries: seq<Entry>, since: nat)
    requires Sorted(entries) && entries != []
    ensures Since(entries, since) == [] <==> entries[|entries| - 1].ts < since
  {
    SinceMembers(entries, since);
    var newest := entries[|entries| - 1];
    assert newest in entries;
    assert Since(entries, since) == [] || Since(entries, since)[0] in Since(entries, since);
  }
}
