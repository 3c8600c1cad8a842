/** The on/off timeline of history_store.rs: the loop that turns sorted entries into coloured segments. Pixel
    scaling is left out; segments are kept in seconds. */
module Timeline {
  import opened History

  datatype Segment = Segment(start: nat, end: nat, on: bool)

  function Later(a: nat, b: nat): nat {
    if a < b then b else a
  }

  function Earlier(a: nat, b: nat): nat {
    if a < b then a else b
  }

  /** The segments follow one another without gap or overlap from `from` to `to`, none empty. */
  predicate Tiles(segments: seq<Segment>, from: nat, to: nat) {
    if segments == [] then to <= from
    else
      && segments[0].start == from
      && (forall k :: 0 <= k < |segments| ==> segments[k].start < segments[k].end)
      && (forall k :: 0 <= k < |segments| - 1 ==> segments[k].end == segments[k + 1].start)
      && segments[|segments| - 1].end == to
  }

  /** Entry i is the last one at or before the instant t. */
  predicate LastAt(entries: seq<Entry>, t: nat, i: nat) {
    && i < |entries| && entries[i].ts <= t
    && forall j :: i < j < |entries| ==> t < entries[j].ts
  }

  lemma {:induction false} SomeEntryIsLast(entries: seq<Entry>, t: nat) returns (i: nat)
    requires Sorted(entries) && entries != [] && entries[0].ts <= t
    ensures LastAt(entries, t, i)
  {
    i := |entries| - 1;
    if t < entries[i].ts {
      i := SomeEntryIsLast(entries[..i], t);
    }
  }

  /** The colour shown at an instant is that of the last entry at or before it. */
  ghost predicate Shows(segments: seq<Segment>, entries: seq<Entry>) {
    forall k, t: nat, i: nat ::
      0 <= k < |segments| && segments[k].start <= t < segments[k].end && LastAt(entries, t, i) ==>
      segments[k].on == (entries[i].value >= 0.5)
  }

  /** How far the first i entries reach: to the next entry or to now, whichever is earlier. */
  function Reach(entries: seq<Entry>, i: nat, now: nat): nat {
    if i < |entries| then Earlier(entries[i].ts, now) else now
  }

  lemma TilesOneMore(segments: seq<Segment>, from: nat, to: nat, s: Segment)
    requires Tiles(segments, from, to) && s.start < s.end
    requires s.start == if segments == [] then from else to
    ensures Tiles(segments + [s], from, s.end)
  {
    var all := segments + [s];
    forall k | 0 <= k < |all| - 1
      ensures all[k].end == all[k + 1].start
    {
      assert all[k] == segments[k];
    }
  }

  /** The segment of entry i begins where the earlier ones end, and if it is empty nothing is missed. */
  lemma NextSegment(entries: seq<Entry>, since: nat, now: nat, i: nat, segments: seq<Segment>)
    requires Sorted(entries) && 0 < i < |entries|
    requires Tiles(segments, Later(entries[0].ts, since), Reach(entries, i, now))
    ensures var from, start := Later(entries[0].ts, since), Later(entries[i].ts, since);
      var end := Reach(entries, i + 1, now);
      && (start < end ==> start == if segments == [] then from else Reach(entries, i, now))
      && (end <= start ==> Tiles(segments, from, end))
  {
    assert entries[0].ts <= entries[i].ts;
    assert i + 1 < |entries| ==> entries[i].ts <= entries[i + 1].ts;
    if segments != [] {
      assert Later(entries[0].ts, since) < segments[|segments| - 1].end by {
        FirstBeforeLast(segments, Later(entries[0].ts, since), Reach(entries, i, now));
      }
    }
  }

  lemma {:induction false} FirstBeforeLast(segments: seq<Segment>, from: nat, to: nat)
    requires Tiles(segments, from, to) && segments != []
    ensures from < to
  {
    var n := |segments| - 1;
    if n > 0 {
      FirstBeforeLast(segments[..n], from, segments[n - 1].end);
    }
  }

  /** The loop of render_binary_timeline. Ties give empty segments, which it skips, and so do entries that are
      wholly before `since` or lie in the future. */
  method Segments(entries: seq<Entry>, since: nat, now: nat) returns (segments: seq<Segment>)
    requires Sorted(entries)
    ensures entries == [] ==> segments == []
    ensures entries != [] ==> Tiles(segments, if entries[0].ts < since then since else entries[0].ts, now)
    ensures Shows(segments, entries)
  {
    segments := [];
    for i := 0 to |entries|
      invariant i == 0 ==> segments == []
      invariant 0 < i ==> Tiles(segments, Later(entries[0].ts, since), Reach(entries, i, now))
      invariant Shows(segments, entries)
    {
      var start := Later(entries[i].ts, since);
      var end := if i + 1 < |entries| then Earlier(entries[i + 1].ts, now) else now;
      if i > 0 {
        NextSegment(entries, since, now, i, segments);
      }
      if end <= start {
        continue;
      }
      var s := Segment(start, end, entries[i].value >= 0.5);
      TilesOneMore(segments, Later(entries[0].ts, since), if i == 0 then 0 else Reach(entries, i, now), s);
      OnlyItsEntry(entries, i, s, Reach(entries, i + 1, now));
      segments := segments + [s];
    }
  }

  lemma OnlyItsEntry(entries: seq<Entry>, i: nat, s: Segment, end: nat)
    requires Sorted(entries) && i < |entries| && entries[i].ts <= s.start && s.end == end
    requires i + 1 < |entries| ==> end <= entries[i + 1].ts
    ensures forall t: nat, k: nat | s.start <= t < s.end && LastAt(entries, t, k) :: k == i
  {
  }

  /** Exactly one segment is shown at each instant between the first entry (or `since`) and now, none at others. */
  lemma {:induction false} OneColourAtATime(segments: seq<Segment>, from: nat, to: nat, t: nat)
    requires Tiles(segments, from, to)
    ensures from <= t < to <==> exists k :: 0 <= k < |segments| && segments[k].start <= t < segments[k].end
    ensures forall j, k :: 0 <= j < k < |segments| ==> segments[j].end <= segments[k].start
  {
    if segments != [] {
      var n := |segments| - 1;
      var last := segments[n];
      if n > 0 {
        var front := segments[..n];
        OneColourAtATime(front, from, segments[n - 1].end, t);
        assert last.start == segments[n - 1].end;
        if from <= t < last.start {
          var k :| 0 <= k < n && front[k].start <= t < front[k].end;
          assert segments[k] == front[k];
        }
        FirstBeforeLast(front, from, last.start);
        forall j, k | 0 <= j < k < |segments|
          ensures segments[j].end <= segments[k].start
        {
          assert segments[j] == front[j];
          if k < n {
            assert segments[k] == front[k];
          } else if j < n - 1 {
            assert front[j].end <= front[n - 1].start;
          }
        }
        forall k | 0 <= k < |segments| && segments[k].start <= t < segments[k].end
          ensures from <= t < to
        {
          if k < n {
            assert front[k] == segments[k];
          }
        }
      }
      assert last.start <= t < last.end ==> segments[n].start <= t < segments[n].end;
    }
  }
}
