/** Guide harvesting: channel ids in batches of at most 100, a number of
    consecutive time windows each asking for every batch, and the suppression
    of repeated channels across the harvested pages. */
module Epg {
  import opened Wrappers
  import opened Backend

  const GROUP_SIZE: nat := 100

  /** `[ids[i:i + 100] for i in range(0, len(ids), 100)]`. */
  function Chunks(ids: seq<string>): (cs: seq<seq<string>>)
    ensures forall j :: 0 <= j < |cs| ==> 0 < |cs[j]| <= GROUP_SIZE
    ensures forall j :: 0 <= j < |cs| - 1 ==> |cs[j]| == GROUP_SIZE
    decreases |ids|
  {
    if ids == [] then []
    else if |ids| <= GROUP_SIZE then [ids]
    else [ids[..GROUP_SIZE]] + Chunks(ids[GROUP_SIZE..])
  }

  function Concat(cs: seq<seq<string>>): seq<string>
  {
    if cs == [] then [] else cs[0] + Concat(cs[1..])
  }

  /** The batches, put back together, are the ids in their order. */
  lemma {:induction false} ChunksConcat(ids: seq<string>)
    ensures Concat(Chunks(ids)) == ids
    decreases |ids|
  {
    if ids != [] && |ids| > GROUP_SIZE {
      ChunksConcat(ids[GROUP_SIZE..]);
      assert ids == ids[..GROUP_SIZE] + ids[GROUP_SIZE..];
    }
  }

  /** There are as many batches as 100 goes into the number of ids, rounded up. */
  lemma {:induction false} ChunksCount(ids: seq<string>)
    ensures |Chunks(ids)| == (|ids| + GROUP_SIZE - 1) / GROUP_SIZE
    decreases |ids|
  {
    if ids != [] && |ids| > GROUP_SIZE {
      ChunksCount(ids[GROUP_SIZE..]);
    }
  }

  /** One window's requests, batch after batch, stopping at the first failure. */
  function FetchBatches(net: Network, region: string, start: Stamp, batches: seq<seq<string>>): (r: Result<seq<Page>, Error>)
    ensures r.Ok? <==> forall j :: 0 <= j < |batches| ==> Accept(net.timelines(region, start, batches[j])).Ok?
    ensures r.Ok? ==> (|r.value| == |batches|
      && forall j :: 0 <= j < |batches| ==> r.value[j] == net.timelines(region, start, batches[j]).body)
    decreases |batches|
  {
    if batches == [] then Ok([])
    else
      var n := |batches| - 1;
      var r := FetchBatches(net, region, start, batches[..n]);
      assert forall j :: 0 <= j < n ==> batches[..n][j] == batches[j];
      if r.Err? then r
      else
        match Accept(net.timelines(region, start, batches[n]))
        case Err(e) => Err(e)
        case Ok(page) => Ok(r.value + [page])
  }

  /** A failed window fails with the error of its first rejected batch. */
  lemma {:induction false} FetchBatchesFirstFailure(net: Network, region: string, start: Stamp, batches: seq<seq<string>>)
    requires FetchBatches(net, region, start, batches).Err?
    ensures exists j :: (0 <= j < |batches|
      && Accept(net.timelines(region, start, batches[j])) == Err(FetchBatches(net, region, start, batches).error)
      && forall k :: 0 <= k < j ==> Accept(net.timelines(region, start, batches[k])).Ok?)
    decreases |batches|
  {
    var n := |batches| - 1;
    var r := FetchBatches(net, region, start, batches[..n]);
    if r.Err? {
      FetchBatchesFirstFailure(net, region, start, batches[..n]);
      var j :| 0 <= j < n && Accept(net.timelines(region, start, batches[..n][j])) == Err(r.error)
        && forall k :: 0 <= k < j ==> Accept(net.timelines(region, start, batches[..n][k])).Ok?;
      assert batches[..n][j] == batches[j];
      assert forall k :: 0 <= k < j ==> batches[..n][k] == batches[k];
    } else {
      assert forall k :: 0 <= k < n ==> batches[..n][k] == batches[k];
    }
  }

  /** The outcome of harvesting: the pages of every window, the first failure,
      or the crash of reading the last answer when no request was ever made. */
  datatype Harvest = Harvest(pages: seq<Page>) | Broken(error: Error) | Unbound

  /** `count` windows from `start`: each window asks for every batch, and the
      next window starts where the last answer of this one says its data ends. */
  function Windows(net: Network, region: string, start: Stamp, batches: seq<seq<string>>, count: nat): Harvest
    decreases count
  {
    if count == 0 then Harvest([])
    else
      match FetchBatches(net, region, start, batches)
      case Err(e) => Broken(e)
      case Ok(pages) =>
        if batches == [] then Unbound
        else
          match Windows(net, region, pages[|pages| - 1].endDateTime, batches, count - 1)
          case Harvest(rest) => Harvest(pages + rest)
          case other => other
  }

  /** A successful harvest holds one page per batch per window, and its first
      window is the batches' answers at the start time, in batch order. */
  lemma {:induction false} WindowsShape(net: Network, region: string, start: Stamp, batches: seq<seq<string>>, count: nat)
    requires Windows(net, region, start, batches, count).Harvest?
    ensures |Windows(net, region, start, batches, count).pages| == count * |batches|
    ensures count > 0 ==> forall j :: 0 <= j < |batches| ==>
      Windows(net, region, start, batches, count).pages[j] == net.timelines(region, start, batches[j]).body
    decreases count
  {
    if count > 0 {
      var pages := FetchBatches(net, region, start, batches).value;
      if batches != [] {
        WindowsShape(net, region, pages[|pages| - 1].endDateTime, batches, count - 1);
      }
    }
  }

  /** With no channel there is no answer to read the end time from, and any
      positive number of windows crashes. */
  lemma NoBatchesCrash(net: Network, region: string, start: Stamp, count: nat)
    requires count > 0
    ensures Windows(net, region, start, [], count) == Unbound
  {
  }

  /** Prepend the pages of the windows already done to the outcome of the rest. */
  function Prepend(done: seq<Page>, h: Harvest): Harvest
  {
    match h
    case Harvest(rest) => Harvest(done + rest)
    case other => other
  }

  lemma PrependNothing(h: Harvest)
    ensures Prepend([], h) == h
  {
    if h.Harvest? {
      assert [] + h.pages == h.pages;
    }
  }

  lemma PrependAssoc(a: seq<Page>, b: seq<Page>, h: Harvest)
    ensures Prepend(a, Prepend(b, h)) == Prepend(a + b, h)
  {
    if h.Harvest? {
      assert a + (b + h.pages) == (a + b) + h.pages;
    }
  }

  /** One window of `Windows`, given that window's answers `r`. */
  lemma WindowsStep(net: Network, region: string, start: Stamp, batches: seq<seq<string>>, count: nat, r: Result<seq<Page>, Error>)
    requires count > 0 && r == FetchBatches(net, region, start, batches)
    ensures r.Err? ==> Windows(net, region, start, batches, count) == Broken(r.error)
    ensures r.Ok? && batches == [] ==> r.value == [] && Windows(net, region, start, batches, count) == Unbound
    ensures r.Ok? && batches != [] ==>
      r.value != [] && Windows(net, region, start, batches, count)
        == Prepend(r.value, Windows(net, region, r.value[|r.value| - 1].endDateTime, batches, count - 1))
  {
  }

  /** The window loop's invariant carried over one more window with answers `r`. */
  lemma WindowsAdvance(net: Network, region: string, start: Stamp, batches: seq<seq<string>>, count: nat,
                       done: seq<Page>, t: Stamp, left: nat, r: Result<seq<Page>, Error>)
    requires left > 0 && r == FetchBatches(net, region, t, batches)
    requires Prepend(done, Windows(net, region, t, batches, left)) == Windows(net, region, start, batches, count)
    ensures r.Err? ==> Windows(net, region, start, batches, count) == Broken(r.error)
    ensures r.Ok? && batches == [] ==> r.value == [] && Windows(net, region, start, batches, count) == Unbound
    ensures r.Ok? && batches != [] ==>
      r.value != [] && Prepend(done + r.value, Windows(net, region, r.value[|r.value| - 1].endDateTime, batches, left - 1))
        == Windows(net, region, start, batches, count)
  {
    WindowsStep(net, region, t, batches, left, r);
    if r.Ok? && batches != [] {
      PrependAssoc(done, r.value, Windows(net, region, r.value[|r.value| - 1].endDateTime, batches, left - 1));
    }
  }

  /** The batch loop of one window of `update_epg`. */
  method FetchWindow(net: Network, region: string, start: Stamp, batches: seq<seq<string>>)
    returns (r: Result<seq<Page>, Error>)
    ensures r == FetchBatches(net, region, start, batches)
  {
    var pages: seq<Page> := [];
    for j := 0 to |batches|
      invariant FetchBatches(net, region, start, batches[..j]) == Ok(pages)
    {
      assert batches[..j + 1][..j] == batches[..j];
      var answer := net.timelines(region, start, batches[j]);
      match answer {
        case Raised(name) =>
          BatchFailure(net, region, start, batches, j);
          return Err(ExceptionRaised(name));
        case Replied(status, text, body) =>
          if status != 200 {
            BatchFailure(net, region, start, batches, j);
            return Err(HttpFailure(status, text));
          }
          pages := pages + [body];
      }
    }
    assert batches[..|batches|] == batches;
    r := Ok(pages);
  }

  /** A failure of the `j`th batch, after `j` accepted answers, is the
      failure of the window. */
  lemma BatchFailure(net: Network, region: string, start: Stamp, batches: seq<seq<string>>, j: nat)
    requires j < |batches|
    requires FetchBatches(net, region, start, batches[..j]).Ok?
    requires Accept(net.timelines(region, start, batches[j])).Err?
    ensures FetchBatches(net, region, start, batches) == Err(Accept(net.timelines(region, start, batches[j])).error)
  {
    forall q | 0 <= q < j
      ensures Accept(net.timelines(region, start, batches[q])).Ok?
    {
      assert batches[..j][q] == batches[q];
    }
    var r := FetchBatches(net, region, start, batches);
    FetchBatchesFirstFailure(net, region, start, batches);
    var k :| 0 <= k < |batches| && Accept(net.timelines(region, start, batches[k])) == Err(r.error)
      && forall q :: 0 <= q < k ==> Accept(net.timelines(region, start, batches[q])).Ok?;
    assert k <= j;
    assert k == j;
  }

  /** The window loop of `update_epg`: each window's pages are appended, and
      the start moves to the last answer's end time between windows. */
  method FetchWindows(net: Network, region: string, start: Stamp, batches: seq<seq<string>>, count: nat)
    returns (h: Harvest)
    ensures h == Windows(net, region, start, batches, count)
  {
    var startTime := start;
    var endTime := start;
    var countryData: seq<Page> := [];
    var response: Option<Page> := None;
    PrependNothing(Windows(net, region, start, batches, count));
    for i := 0 to count
      invariant batches == [] ==> response.None?
      invariant Prepend(countryData, Windows(net, region, endTime, batches, count - i)) == Windows(net, region, start, batches, count)
    {
      if endTime != startTime {
        startTime := endTime;
      }
      assert startTime == endTime;
      var r := FetchWindow(net, region, startTime, batches);
      WindowsAdvance(net, region, start, batches, count, countryData, startTime, count - i, r);
      if r.Err? {
        return Broken(r.error);
      }
      countryData := countryData + r.value;
      if r.value != [] {
        response := Some(r.value[|r.value| - 1]);
      }
      if response.None? {
        return Unbound;
      }
      endTime := response.value.endDateTime;
    }
    assert countryData + [] == countryData;
    h := Harvest(countryData);
  }

  /** How many entries of `id` the counter has let through (0 when unseen). */
  function CountOf(counter: map<string, nat>, id: string): nat
  {
    if id in counter then counter[id] else 0
  }

  /** Every count lies between 1 and the limit. */
  predicate Capped(counter: map<string, nat>, limit: nat)
  {
    forall id :: id in counter ==> 1 <= counter[id] <= limit
  }

  function ChannelIds(entries: seq<Entry>): seq<string>
  {
    seq(|entries|, i requires 0 <= i < |entries| => entries[i].channelId)
  }

  /** The number of entries of channel `id`. */
  function Occ(entries: seq<Entry>, id: string): nat
  {
    multiset(ChannelIds(entries))[id]
  }

  lemma OccSnoc(entries: seq<Entry>, e: Entry, id: string)
    ensures Occ(entries + [e], id) == Occ(entries, id) + (if e.channelId == id then 1 else 0)
  {
    assert ChannelIds(entries + [e]) == ChannelIds(entries) + [e.channelId];
  }

  function Min(a: int, b: int): int
  {
    if a <= b then a else b
  }

  datatype Pruned = Pruned(kept: seq<Entry>, counter: map<string, nat>)

  /** One counter step: an entry of an unseen channel is kept and counted
      as 1; one of a seen channel is kept and counted while the count is below
      the limit, and dropped otherwise. */
  function Admit(counter: map<string, nat>, id: string, limit: nat): (keep: bool)
  {
    id !in counter || counter[id] < limit
  }

  function Count(counter: map<string, nat>, id: string, limit: nat): map<string, nat>
  {
    if id !in counter then counter[id := 1]
    else if counter[id] < limit then counter[id := counter[id] + 1]
    else counter
  }

  /** The suppression loop of `get_all_epg_data` over one page's entries,
      dropping the entry at hand when its channel has had its `limit`. */
  function Prune(counter: map<string, nat>, entries: seq<Entry>, limit: nat): Pruned
    decreases |entries|
  {
    if entries == [] then Pruned([], counter)
    else
      var n := |entries| - 1;
      var p := Prune(counter, entries[..n], limit);
      var id := entries[n].channelId;
      Pruned(if Admit(p.counter, id, limit) then p.kept + [entries[n]] else p.kept, Count(p.counter, id, limit))
  }

  /** One counter step, in terms of counts. */
  lemma CountStep(counter: map<string, nat>, e: string, limit: nat, id: string)
    requires limit >= 1 && Capped(counter, limit)
    ensures Capped(Count(counter, e, limit), limit)
    ensures Admit(counter, e, limit) <==> CountOf(counter, e) < limit
    ensures CountOf(Count(counter, e, limit), id) ==
      if e == id then Min(CountOf(counter, id) + 1, limit) else CountOf(counter, id)
    ensures CountOf(Count(counter, e, limit), id) ==
      CountOf(counter, id) + if e == id && Admit(counter, e, limit) then 1 else 0
  {
  }

  /** The counter after a page holds, for each channel, its earlier count plus
      its entries on the page, capped at the limit; and the same count is the
      earlier count plus the entries kept. */
  lemma {:induction false} PruneCounts(counter: map<string, nat>, entries: seq<Entry>, limit: nat, id: string)
    requires limit >= 1 && Capped(counter, limit)
    ensures Capped(Prune(counter, entries, limit).counter, limit)
    ensures CountOf(Prune(counter, entries, limit).counter, id) == Min(CountOf(counter, id) + Occ(entries, id), limit)
    ensures CountOf(Prune(counter, entries, limit).counter, id) == CountOf(counter, id) + Occ(Prune(counter, entries, limit).kept, id)
    decreases |entries|
  {
    if entries != [] {
      var n := |entries| - 1;
      var e := entries[n];
      var p := Prune(counter, entries[..n], limit);
      PruneCounts(counter, entries[..n], limit, id);
      CountStep(p.counter, e.channelId, limit, id);
      assert entries == entries[..n] + [e];
      OccSnoc(entries[..n], e, id);
      OccSnoc(p.kept, e, id);
      assert Occ(p.kept, id) == Occ(p.kept + [e], id) - (if e.channelId == id then 1 else 0);
    }
  }

  /** An entry is kept exactly when fewer than `limit` entries of its channel
      were let through before it: counted in earlier pages or kept earlier on
      this page. */
  lemma PruneDecision(counter: map<string, nat>, entries: seq<Entry>, e: Entry, limit: nat)
    requires limit >= 1 && Capped(counter, limit)
    ensures Prune(counter, entries + [e], limit).kept ==
      Prune(counter, entries, limit).kept + (if CountOf(counter, e.channelId) + Occ(entries, e.channelId) < limit then [e] else [])
  {
    assert (entries + [e])[..|entries|] == entries;
    PruneCounts(counter, entries, limit, e.channelId);
  }

  /** The suppression loop over one page, removing the dropped entry at its
      own position in the page's list. */
  /** Removing the entry just after `done` from `done + rest`. */
  lemma DropAt(done: seq<Entry>, rest: seq<Entry>)
    requires rest != []
    ensures (done + rest)[..|done|] + (done + rest)[|done| + 1..] == done + rest[1..]
  {
    assert (done + rest)[..|done|] == done;
    assert (done + rest)[|done| + 1..] == rest[1..];
  }

  /** Moving the entry at `i` from the rest to the kept part. */
  lemma ShiftOne(done: seq<Entry>, data: seq<Entry>, i: nat)
    requires i < |data|
    ensures done + data[i..] == (done + [data[i]]) + data[i + 1..]
    ensures data[i..][1..] == data[i + 1..]
  {
    assert data[i..] == [data[i]] + data[i + 1..];
  }

  method PrunePage(data: seq<Entry>, counter: map<string, nat>, limit: nat)
    returns (kept: seq<Entry>, counter': map<string, nat>)
    ensures Pruned(kept, counter') == Prune(counter, data, limit)
  {
    kept := data;
    counter' := counter;
    ghost var done: seq<Entry> := [];
    var pos := 0;
    for i := 0 to |data|
      invariant Prune(counter, data[..i], limit) == Pruned(done, counter')
      invariant kept == done + data[i..]
      invariant pos == |done|
    {
      assert data[..i + 1][..i] == data[..i];
      ShiftOne(done, data, i);
      var entry := data[i];
      var id := entry.channelId;
      if id in counter' {
        if counter'[id] < limit {
          counter' := counter'[id := counter'[id] + 1];
          done := done + [entry];
          pos := pos + 1;
        } else {
          DropAt(done, data[i..]);
          kept := kept[..pos] + kept[pos + 1..];
        }
      } else {
        counter' := counter'[id := 1];
        done := done + [entry];
        pos := pos + 1;
      }
    }
    assert data[..|data|] == data;
  }

  /** The suppression over a run of pages, threading one counter through. */
  function PrunePages(counter: map<string, nat>, pages: seq<Page>, limit: nat): (r: (seq<Page>, map<string, nat>))
    ensures |r.0| == |pages|
    ensures forall k :: 0 <= k < |pages| ==> r.0[k].endDateTime == pages[k].endDateTime
    decreases |pages|
  {
    if pages == [] then ([], counter)
    else
      var n := |pages| - 1;
      var (done, c) := PrunePages(counter, pages[..n], limit);
      var p := Prune(c, pages[n].data, limit);
      (done + [Page(p.kept, pages[n].endDateTime)], p.counter)
  }

  /** The last page of a run is suppressed with the counter the rest leaves. */
  lemma PrunePagesSnoc(counter: map<string, nat>, pages: seq<Page>, limit: nat)
    requires pages != []
    ensures PrunePages(counter, pages, limit) ==
      (PrunePages(counter, pages[..|pages| - 1], limit).0
         + [Page(Prune(PrunePages(counter, pages[..|pages| - 1], limit).1, pages[|pages| - 1].data, limit).kept,
                 pages[|pages| - 1].endDateTime)],
       Prune(PrunePages(counter, pages[..|pages| - 1], limit).1, pages[|pages| - 1].data, limit).counter)
  {
  }

  /** Suppressing over two runs of pages one after the other is suppressing
      over their concatenation, the counter carried from the first to the second. */
  lemma {:induction false} PrunePagesAppend(counter: map<string, nat>, a: seq<Page>, b: seq<Page>, limit: nat)
    ensures PrunePages(counter, a + b, limit) ==
      (PrunePages(counter, a, limit).0 + PrunePages(PrunePages(counter, a, limit).1, b, limit).0,
       PrunePages(PrunePages(counter, a, limit).1, b, limit).1)
    decreases |b|
  {
    if b == [] {
      assert a + b == a;
      assert PrunePages(counter, a, limit).0 + [] == PrunePages(counter, a, limit).0;
    } else {
      var n := |b| - 1;
      PageSnocSplit(a, b);
      PrunePagesAppend(counter, a, b[..n], limit);
      var x := PrunePages(counter, a, limit).0;
      var c1 := PrunePages(counter, a, limit).1;
      var y := PrunePages(c1, b[..n], limit).0;
      var c2 := PrunePages(c1, b[..n], limit).1;
      var p := Prune(c2, b[n].data, limit);
      PrunePagesSnoc(c1, b, limit);
      PrunePagesSnoc(counter, a + b, limit);
      PageAppendAssoc(x, y, [Page(p.kept, b[n].endDateTime)]);
    }
  }

  lemma PageSnocSplit(a: seq<Page>, b: seq<Page>)
    requires b != []
    ensures (a + b)[..|a + b| - 1] == a + b[..|b| - 1]
    ensures (a + b)[|a + b| - 1] == b[|b| - 1]
  {
  }

  lemma PageAppendAssoc(x: seq<Page>, y: seq<Page>, z: seq<Page>)
    ensures (x + y) + z == x + (y + z)
  {
  }

  /** The page loop of `get_all_epg_data` for one region: each page's entries
      are suppressed in turn with the counter carried along. */
  method PruneRun(pages: seq<Page>, counter: map<string, nat>, limit: nat)
    returns (pruned: seq<Page>, counter': map<string, nat>)
    ensures (pruned, counter') == PrunePages(counter, pages, limit)
  {
    pruned := [];
    counter' := counter;
    for j := 0 to |pages|
      invariant (pruned, counter') == PrunePages(counter, pages[..j], limit)
    {
      assert pages[..j + 1][..j] == pages[..j];
      var kept, c := PrunePage(pages[j].data, counter', limit);
      counter' := c;
      pruned := pruned + [Page(kept, pages[j].endDateTime)];
    }
    assert pages[..|pages|] == pages;
  }

  /** The entries of channel `id` over a run of pages. */
  function OccPages(pages: seq<Page>, id: string): nat
    decreases |pages|
  {
    if pages == [] then 0 else OccPages(pages[..|pages| - 1], id) + Occ(pages[|pages| - 1].data, id)
  }

  /** Over any run of pages, no channel keeps more than `limit` entries: the
      final count is the starting count plus the entries kept, and never
      exceeds the limit. */
  lemma {:induction false} PrunePagesAtMost(counter: map<string, nat>, pages: seq<Page>, limit: nat, id: string)
    requires limit >= 1 && Capped(counter, limit)
    ensures Capped(PrunePages(counter, pages, limit).1, limit)
    ensures CountOf(PrunePages(counter, pages, limit).1, id) == CountOf(counter, id) + OccPages(PrunePages(counter, pages, limit).0, id)
    ensures OccPages(PrunePages(counter, pages, limit).0, id) <= limit
    decreases |pages|
  {
    if pages != [] {
      var n := |pages| - 1;
      PrunePagesAtMost(counter, pages[..n], limit, id);
      var (done, c) := PrunePages(counter, pages[..n], limit);
      PruneCounts(c, pages[n].data, limit, id);
      var out := PrunePages(counter, pages, limit).0;
      assert out[..n] == done;
    }
  }

  /** All entries of a run of pages, page after page. */
  function Flat(pages: seq<Page>): seq<Entry>
    decreases |pages|
  {
    if pages == [] then [] else Flat(pages[..|pages| - 1]) + pages[|pages| - 1].data
  }

  /** Suppressing two lists in turn, with the counter carried over, is
      suppressing their concatenation. */
  lemma {:induction false} PruneAppend(counter: map<string, nat>, a: seq<Entry>, b: seq<Entry>, limit: nat)
    ensures var p := Prune(counter, a, limit);
      Prune(counter, a + b, limit) == Pruned(p.kept + Prune(p.counter, b, limit).kept, Prune(p.counter, b, limit).counter)
    decreases |b|
  {
    var p := Prune(counter, a, limit);
    if b == [] {
      assert a + b == a;
      assert p.kept + [] == p.kept;
    } else {
      var n := |b| - 1;
      assert (a + b)[..|a + b| - 1] == a + b[..n];
      assert (a + b)[|a + b| - 1] == b[n];
      PruneAppend(counter, a, b[..n], limit);
      var q := Prune(p.counter, b[..n], limit);
      assert (p.kept + q.kept) + [b[n]] == p.kept + (q.kept + [b[n]]);
    }
  }

  /** Suppression over a run of pages keeps, page by page, exactly the
      entries that suppressing all the run's entries as one list keeps, and
      leaves the same counter. */
  lemma {:induction false} PrunePagesFlat(counter: map<string, nat>, pages: seq<Page>, limit: nat)
    ensures Flat(PrunePages(counter, pages, limit).0) == Prune(counter, Flat(pages), limit).kept
    ensures PrunePages(counter, pages, limit).1 == Prune(counter, Flat(pages), limit).counter
    decreases |pages|
  {
    if pages != [] {
      var n := |pages| - 1;
      PrunePagesFlat(counter, pages[..n], limit);
      var (done, c) := PrunePages(counter, pages[..n], limit);
      var p := Prune(c, pages[n].data, limit);
      var out := done + [Page(p.kept, pages[n].endDateTime)];
      assert out[..|out| - 1] == done;
      PruneAppend(counter, Flat(pages[..n]), pages[n].data, limit);
    }
  }

  /** Over a run, a channel's count becomes its carried count plus its
      entries in the run, capped at the limit; with `PrunePagesAtMost`, the
      channel keeps exactly that many entries beyond its carried count. */
  lemma {:induction false} PrunePagesCount(counter: map<string, nat>, pages: seq<Page>, limit: nat, id: string)
    requires limit >= 1 && Capped(counter, limit)
    ensures CountOf(PrunePages(counter, pages, limit).1, id) == Min(CountOf(counter, id) + Occ(Flat(pages), id), limit)
  {
    PrunePagesCounter(counter, pages, limit);
    PruneCounts(counter, Flat(pages), limit, id);
  }

  lemma PrunePagesCounter(counter: map<string, nat>, pages: seq<Page>, limit: nat)
    ensures PrunePages(counter, pages, limit).1 == Prune(counter, Flat(pages), limit).counter
  {
    PrunePagesFlat(counter, pages, limit);
  }

  /** Over a whole run, an entry is kept exactly when its channel's carried
      count plus its occurrences earlier in the run is below the limit. */
  lemma {:induction false} RunDecision(counter: map<string, nat>, pages: seq<Page>, e: Entry, limit: nat)
    requires limit >= 1 && Capped(counter, limit)
    ensures Prune(counter, Flat(pages) + [e], limit).kept ==
      Flat(PrunePages(counter, pages, limit).0)
        + (if CountOf(counter, e.channelId) + Occ(Flat(pages), e.channelId) < limit then [e] else [])
  {
    PrunePagesFlat(counter, pages, limit);
    PruneDecision(counter, Flat(pages), e, limit);
  }

  /** Python's `list.remove(x)`: the first element equal to `x` goes. */
  function RemoveFirst(s: seq<Entry>, x: Entry): (r: seq<Entry>)
    ensures x in s ==> |r| == |s| - 1 && multiset(r) == multiset(s) - multiset{x}
    ensures x !in s ==> r == s
  {
    if s == [] then []
    else
      assert s == [s[0]] + s[1..];
      if s[0] == x then s[1..]
      else [s[0]] + RemoveFirst(s[1..], x)
  }

  /** The position of the first copy of `x`. */
  function FirstIndex(s: seq<Entry>, x: Entry): (k: nat)
    requires x in s
    ensures k < |s| && s[k] == x && x !in s[..k]
  {
    if s[0] == x then 0
    else
      assert s == [s[0]] + s[1..];
      var k := FirstIndex(s[1..], x);
      assert s[..k + 1] == [s[0]] + s[1..][..k];
      k + 1
  }

  /** The copy removed is the first one: everything before it stays, and so
      does everything after it. */
  lemma {:induction false} RemoveFirstTakesFirstCopy(s: seq<Entry>, x: Entry)
    requires x in s
    ensures RemoveFirst(s, x) == s[..FirstIndex(s, x)] + s[FirstIndex(s, x) + 1..]
  {
    if s[0] == x {
      assert s[..0] == [];
    } else {
      assert s == [s[0]] + s[1..];
      RemoveFirstTakesFirstCopy(s[1..], x);
      var k := FirstIndex(s[1..], x);
      assert s[..k + 1] == [s[0]] + s[1..][..k];
      assert s[k + 2..] == s[1..][k + 1..];
    }
  }

  /** The suppression loop as written: it walks a copy of the page's list and
      drops an entry with `data.remove(entry)`, which takes out the first
      entry equal to it, not necessarily the one at hand. */
  function PruneAsWritten(counter: map<string, nat>, walk: seq<Entry>, data: seq<Entry>, limit: nat): Pruned
    decreases |walk|
  {
    if walk == [] then Pruned(data, counter)
    else
      var id := walk[0].channelId;
      PruneAsWritten(Count(counter, id, limit), walk[1..],
        if Admit(counter, id, limit) then data else RemoveFirst(data, walk[0]), limit)
  }

  /** The intended suppression of a page listing one channel's entry four
      times around another channel, with a limit of 3: the fourth copy goes. */
  lemma PruneDropsFourthCopy()
    ensures Prune(map[], [Entry("a", []), Entry("a", []), Entry("a", []), Entry("b", []), Entry("a", [])], 3).kept
      == [Entry("a", []), Entry("a", []), Entry("a", []), Entry("b", [])]
  {
    var x := Entry("a", []);
    var y := Entry("b", []);
    var page := [x, x, x, y, x];
    assert page[..4] == [x, x, x, y];
    assert [x, x, x, y][..3] == [x, x, x];
    assert [x, x, x][..2] == [x, x];
    assert [x, x][..1] == [x];
    assert Prune(map[], [x], 3) == Pruned([x], map["a" := 1]);
    assert Prune(map[], [x, x], 3) == Pruned([x, x], map["a" := 2]);
    assert Prune(map[], [x, x, x], 3) == Pruned([x, x, x], map["a" := 3]);
    assert Prune(map[], [x, x, x, y], 3) == Pruned([x, x, x, y], map["a" := 3, "b" := 1]);
  }

  /** The last two steps of the loop as written on that page: the fourth copy
      of channel "a" is over the limit and `remove` takes out the first copy. */
  lemma AsWrittenTail()
    ensures PruneAsWritten(map["a" := 3], [Entry("b", []), Entry("a", [])],
      [Entry("a", []), Entry("a", []), Entry("a", []), Entry("b", []), Entry("a", [])], 3).kept
      == [Entry("a", []), Entry("a", []), Entry("b", []), Entry("a", [])]
  {
    var x := Entry("a", []);
    var y := Entry("b", []);
    var page := [x, x, x, y, x];
    var c4 := map["a" := 3, "b" := 1];
    assert [y, x][1..] == [x];
    assert Count(map["a" := 3], "b", 3) == c4;
    assert RemoveFirst(page, x) == [x, x, y, x];
    assert PruneAsWritten(c4, [x], page, 3) == Pruned([x, x, y, x], c4);
  }

  /** The first three steps of the loop as written on that page: the three
      copies of channel "a" are all let through. */
  lemma AsWrittenHead()
    ensures PruneAsWritten(map[], [Entry("a", []), Entry("a", []), Entry("a", []), Entry("b", []), Entry("a", [])],
      [Entry("a", []), Entry("a", []), Entry("a", []), Entry("b", []), Entry("a", [])], 3)
      == PruneAsWritten(map["a" := 3], [Entry("b", []), Entry("a", [])],
      [Entry("a", []), Entry("a", []), Entry("a", []), Entry("b", []), Entry("a", [])], 3)
  {
    var x := Entry("a", []);
    var y := Entry("b", []);
    var page := [x, x, x, y, x];
    assert page[1..] == [x, x, y, x];
    assert [x, x, y, x][1..] == [x, y, x];
    assert [x, y, x][1..] == [y, x];
    assert Count(map[], "a", 3) == map["a" := 1];
    assert Count(map["a" := 1], "a", 3) == map["a" := 2];
    assert Count(map["a" := 2], "a", 3) == map["a" := 3];
  }

  /** The same page under the loop as written: the removal takes out the kept
      copy at the front, and the fourth copy stays at the end, so the page keeps
      the right entries in the wrong order. */
  lemma PruneAsWrittenReorders()
    ensures PruneAsWritten(map[], [Entry("a", []), Entry("a", []), Entry("a", []), Entry("b", []), Entry("a", [])],
      [Entry("a", []), Entry("a", []), Entry("a", []), Entry("b", []), Entry("a", [])], 3).kept
      == [Entry("a", []), Entry("a", []), Entry("b", []), Entry("a", [])]
  {
    AsWrittenHead();
    AsWrittenTail();
  }
}
