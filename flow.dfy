/** The client's request-backed operations as functions of the state they
    read and write: each returns its result together with the state it
    leaves, so a method of the client is proved to be exactly one of these
    steps. */
module Flow {
  import opened Wrappers
  import opened Backend
  import opened Session
  import opened Catalog
  import Merge
  import opened Epg

  /** The number of guide windows `get_all_epg_data` asks for per region. */
  const RANGE_COUNT: nat := 3

  /** What a request-backed call hands back: a value, or an error that may be
      empty (the source returns `(None, None)` when the start answer carries
      no session token). */
  datatype Reply<T> = Done(value: T) | Failed(error: Option<Error>)

  /** The outcome of `update_epg`: the guide was stored, a failure was
      returned, or the run raised (it read an answer that was never received,
      or iterated a missing station list). */
  datatype EpgOutcome = Updated | Stopped(error: Option<Error>) | Crashed

  /** The outcome of `get_all_epg_data`: the "data" list of every kept page,
      or the first region's failure. */
  datatype AllEpg = Collected(pages: seq<seq<Entry>>) | Halted(error: Option<Error>) | Aborted

  /** The part of the client's state that metadata and guide requests touch:
      the client-level start cache, the cache of pool slot 0, the stored
      catalogs with the order their regions were first stored in, and the
      stored guide pages. */
  datatype Snapshot = Snapshot(
    responses: map<string, BootResponse>, issuedAt: map<string, int>,
    slotResponses: map<string, BootResponse>, slotIssuedAt: map<string, int>,
    channels: map<string, seq<Station>>, order: seq<string>,
    epg: map<string, seq<Page>>)

  /** A result and the state it leaves. */
  datatype Step<T> = Step(value: T, after: Snapshot)

  ghost predicate Ordered(s: Snapshot)
  {
    Merge.WellOrdered(s.order, s.channels)
  }

  function Ids(stations: seq<Station>): (ids: seq<string>)
    ensures |ids| == |stations| && forall i :: 0 <= i < |stations| ==> ids[i] == stations[i].id
  {
    seq(|stations|, i requires 0 <= i < |stations| => stations[i].id)
  }

  function DataOf(pages: seq<Page>): (d: seq<seq<Entry>>)
    ensures |d| == |pages| && forall k :: 0 <= k < |pages| ==> d[k] == pages[k].data
  {
    seq(|pages|, k requires 0 <= k < |pages| => pages[k].data)
  }

  lemma DataOfAppend(a: seq<Page>, b: seq<Page>)
    ensures DataOf(a + b) == DataOf(a) + DataOf(b)
  {
  }

  /** `resp_data`: a client-level answer younger than four hours is reused;
      otherwise slot 0 boots, and an accepted answer is also cached at client
      level with the current time. */
  function RespStep(s: Snapshot, region: string, now: int, net: Network): (r: Step<Result<BootResponse, Error>>)
    ensures r.after.channels == s.channels && r.after.order == s.order && r.after.epg == s.epg
    ensures r.value.Ok? ==> Fresh(r.after.responses, r.after.issuedAt, region, now)
                            && r.after.responses[region] == r.value.value
    ensures r.value.Err? ==> r.after.responses == s.responses && r.after.issuedAt == s.issuedAt
    ensures Fresh(s.responses, s.issuedAt, region, now) ==> r == Step(Ok(s.responses[region]), s)
    ensures !Fresh(s.responses, s.issuedAt, region, now) ==>
      var b := BootStep(s.slotResponses, s.slotIssuedAt, region, now, net.start(region));
      && r.value == b.result
      && r.after.slotResponses == b.responses && r.after.slotIssuedAt == b.issuedAt
      && (b.result.Ok? ==> r.after.responses == s.responses[region := b.result.value]
                           && r.after.issuedAt == s.issuedAt[region := now])
  {
    if Fresh(s.responses, s.issuedAt, region, now) then Step(Ok(s.responses[region]), s)
    else
      var b := BootStep(s.slotResponses, s.slotIssuedAt, region, now, net.start(region));
      var booted := s.(slotResponses := b.responses, slotIssuedAt := b.issuedAt);
      if b.result.Err? then Step(b.result, booted)
      else Step(b.result, booted.(responses := s.responses[region := b.result.value],
                                  issuedAt := s.issuedAt[region := now]))
  }

  /** Asking again at the same time after an accepted answer reuses it and
      changes nothing. */
  lemma RespStepReuses(s: Snapshot, region: string, now: int, net: Network)
    requires RespStep(s, region, now, net).value.Ok?
    ensures var r := RespStep(s, region, now, net);
      RespStep(r.after, region, now, net) == r
  {
  }

  /** After an answer obtained from slot 0 at `t`, every request for the
      same region before `t` + 4 h, whatever the service would answer then,
      returns that answer from the client-level cache and changes nothing. */
  lemma RespStepReusedWithinFourHours(s: Snapshot, region: string, t: int, t': int, net: Network, net': Network)
    requires !Fresh(s.responses, s.issuedAt, region, t)
    requires RespStep(s, region, t, net).value.Ok?
    requires t <= t' < t + FOUR_HOURS
    ensures var r := RespStep(s, region, t, net);
      RespStep(r.after, region, t', net') == r
  {
  }

  /** Once four hours have passed since the client-level answer was cached,
      the next request goes to slot 0's boot again. */
  lemma RespStepRefreshedAfterFourHours(s: Snapshot, region: string, t: int, t': int, net: Network, net': Network)
    requires !Fresh(s.responses, s.issuedAt, region, t)
    requires RespStep(s, region, t, net).value.Ok?
    requires t' >= t + FOUR_HOURS
    ensures var r := RespStep(s, region, t, net).after;
      RespStep(r, region, t', net').value
        == BootStep(r.slotResponses, r.slotIssuedAt, region, t', net'.start(region)).result
  {
  }

  /** `stations` is the sorted catalog of `region` built from its accepted
      channel and category listings. */
  predicate ListedCatalog(region: string, net: Network, stations: seq<Station>)
  {
    && Accept(net.channelList(region)).Ok? && Accept(net.categoryList(region)).Ok?
    && stations == RegionCatalog(region, Accept(net.channelList(region)).value, Accept(net.categoryList(region)).value)
  }

  /** The listing part of `channels` for one region: the channel listing,
      then the category listing, and the sorted catalog built from both. */
  function ListingReply(region: string, net: Network): (r: Reply<seq<Station>>)
    ensures r.Done? <==> Accept(net.channelList(region)).Ok? && Accept(net.categoryList(region)).Ok?
    ensures r.Done? ==> ListedCatalog(region, net, r.value)
    ensures Accept(net.channelList(region)).Err? ==> r == Failed(Some(Accept(net.channelList(region)).error))
    ensures Accept(net.channelList(region)).Ok? && Accept(net.categoryList(region)).Err? ==>
      r == Failed(Some(Accept(net.categoryList(region)).error))
  {
    match Accept(net.channelList(region))
    case Err(e) => Failed(Some(e))
    case Ok(listing) =>
      match Accept(net.categoryList(region))
      case Err(e) => Failed(Some(e))
      case Ok(cats) => Done(RegionCatalog(region, listing, cats))
  }

  /** Storing a region's catalog: it replaces the region's old one, and a
      region stored for the first time goes to the end of the order. */
  function Store(s: Snapshot, region: string, v: seq<Station>): (t: Snapshot)
    ensures t.channels == s.channels[region := v]
    ensures region in s.channels ==> t.order == s.order
    ensures region !in s.channels ==> t.order == s.order + [region]
    ensures t.(channels := s.channels, order := s.order) == s
  {
    s.(channels := s.channels[region := v], order := if region in s.channels then s.order else s.order + [region])
  }

  /** `channels` for a region other than "all". */
  function RegionChannelsStep(s: Snapshot, region: string, now: int, net: Network): Step<Reply<seq<Station>>>
  {
    var m := RespStep(s, region, now, net);
    if m.value.Err? then Step(Failed(Some(m.value.error)), m.after)
    else if m.value.value.sessionToken.None? then Step(Failed(None), m.after)
    else
      var reply := ListingReply(region, net);
      if reply.Done? then Step(reply, Store(m.after, region, reply.value)) else Step(reply, m.after)
  }

  /** A region's catalog is handed out and stored exactly when the start
      answer is accepted and carries a token and both listings are accepted;
      it is then the sorted catalog of those listings. A failure reports the
      boot's error, nothing for a missing token, or the first rejected
      listing's error, and stores no catalog. */
  lemma RegionChannelsOutcome(s: Snapshot, region: string, now: int, net: Network)
    ensures var m := RespStep(s, region, now, net);
      var c := RegionChannelsStep(s, region, now, net);
      && (c.value.Done? <==>
            m.value.Ok? && m.value.value.sessionToken.Some?
            && Accept(net.channelList(region)).Ok? && Accept(net.categoryList(region)).Ok?)
      && (c.value.Done? ==> ListedCatalog(region, net, c.value.value) && c.after == Store(m.after, region, c.value.value))
      && (c.value.Failed? ==> c.after == m.after)
      && (m.value.Err? ==> c.value == Failed(Some(m.value.error)))
      && (m.value.Ok? && m.value.value.sessionToken.None? ==> c.value == Failed(None))
      && (m.value.Ok? && m.value.value.sessionToken.Some? && c.value.Failed? ==> c.value == ListingReply(region, net))
  {
  }

  /** `channels`: "all" hands out the merge and stores its renumbered
      records; any other region goes through its own listings. */
  ghost function ChannelsStep(s: Snapshot, region: string, now: int, net: Network): (r: Step<Reply<seq<Station>>>)
    requires Ordered(s)
    ensures Ordered(r.after)
    ensures r.after.epg == s.epg
  {
    if region == "all" then
      Merge.MergedSameFilter(s.order, s.channels);
      var merged := Merge.MergeAll(s.order, s.channels);
      Step(Done(merged.channels), s.(channels := merged.stored))
    else
      var c := RegionChannelsStep(s, region, now, net);
      if c.value.Done? then
        Merge.StoreWellOrdered(s.order, s.channels, region, c.value.value);
        c
      else c
  }

  /** The outcome of the window loops and what they store. */
  function HarvestStep(s: Snapshot, region: string, h: Harvest): (r: Step<EpgOutcome>)
    ensures r.value.Updated? <==> h.Harvest?
    ensures h.Harvest? ==> r.after == s.(epg := s.epg[region := h.pages])
    ensures h.Broken? ==> r == Step(Stopped(Some(h.error)), s)
    ensures h.Unbound? ==> r == Step(Crashed, s)
  {
    match h
    case Harvest(pages) => Step(Updated, s.(epg := s.epg[region := pages]))
    case Broken(e) => Step(Stopped(Some(e)), s)
    case Unbound => Step(Crashed, s)
  }

  /** `update_epg`: boot, require a token, fetch the catalog through
      `channels`, and harvest `rangeCount` windows of its ids from `start`. */
  ghost function UpdateEpgStep(s: Snapshot, region: string, rangeCount: nat, now: int, start: Stamp, net: Network)
    : (r: Step<EpgOutcome>)
    requires Ordered(s)
    ensures Ordered(r.after)
    ensures r.value.Updated? ==> region in r.after.epg
  {
    var m := RespStep(s, region, now, net);
    if m.value.Err? then Step(Stopped(Some(m.value.error)), m.after)
    else if m.value.value.sessionToken.None? then Step(Stopped(None), m.after)
    else
      var c := ChannelsStep(m.after, region, now, net);
      match c.value
      case Failed(e) => Step(if e.Some? then Stopped(e) else Crashed, c.after)
      case Done(stations) => HarvestStep(c.after, region, Windows(net, region, start, Chunks(Ids(stations)), rangeCount))
  }

  /** The guide of a region other than "all" is stored exactly when the boot
      gives a token, both listings are accepted and every window request is
      accepted; the pages are then the harvest of the region's sorted
      catalog, and the catalog is stored too. */
  lemma UpdateEpgRegion(s: Snapshot, region: string, rangeCount: nat, now: int, start: Stamp, net: Network)
    requires Ordered(s) && region != "all"
    ensures var m := RespStep(s, region, now, net);
      var u := UpdateEpgStep(s, region, rangeCount, now, start, net);
      var catalog := ListingReply(region, net);
      && (u.value.Updated? <==>
            m.value.Ok? && m.value.value.sessionToken.Some? && catalog.Done?
            && Windows(net, region, start, Chunks(Ids(catalog.value)), rangeCount).Harvest?)
      && (u.value.Updated? ==>
            u.after == Store(m.after, region, catalog.value).(epg := s.epg[region :=
              Windows(net, region, start, Chunks(Ids(catalog.value)), rangeCount).pages]))
      && (u.value.Crashed? <==>
            m.value.Ok? && m.value.value.sessionToken.Some? && catalog.Done?
            && Windows(net, region, start, Chunks(Ids(catalog.value)), rangeCount).Unbound?)
      && (!u.value.Updated? ==> u.after.epg == s.epg)
  {
    var m := RespStep(s, region, now, net);
    if m.value.Ok? && m.value.value.sessionToken.Some? {
      RespStepReuses(s, region, now, net);
    }
  }

  /** For "all", the guide harvested is that of the merge of the stored
      catalogs, whose renumbered records are stored. */
  lemma UpdateEpgAll(s: Snapshot, rangeCount: nat, now: int, start: Stamp, net: Network)
    requires Ordered(s)
    ensures var m := RespStep(s, "all", now, net);
      var u := UpdateEpgStep(s, "all", rangeCount, now, start, net);
      var merged := Merge.MergeAll(s.order, s.channels);
      && (u.value.Updated? <==>
            m.value.Ok? && m.value.value.sessionToken.Some?
            && Windows(net, "all", start, Chunks(Ids(merged.channels)), rangeCount).Harvest?)
      && (u.value.Updated? ==>
            u.after == m.after.(channels := merged.stored, epg := s.epg["all" :=
              Windows(net, "all", start, Chunks(Ids(merged.channels)), rangeCount).pages]))
  {
  }

  /** One region of `get_all_epg_data`: its update, the pages harvested, the
      pages kept after suppression, and the counter afterwards. */
  datatype Collect = Collect(outcome: EpgOutcome, harvested: seq<Page>, pruned: seq<Page>, seen: map<string, nat>)

  /** One region of `get_all_epg_data`: update its guide, then suppress over
      the stored pages with the counter carried in; the kept pages replace
      the stored ones. */
  ghost function CollectStep(s: Snapshot, region: string, now: int, start: Stamp, net: Network, seen: map<string, nat>)
    : (r: Step<Collect>)
    requires Ordered(s)
    ensures Ordered(r.after)
    ensures r.value.outcome == UpdateEpgStep(s, region, RANGE_COUNT, now, start, net).value
    ensures r.value.outcome.Updated? ==>
      var u := UpdateEpgStep(s, region, RANGE_COUNT, now, start, net).after;
      && r.value.harvested == u.epg[region]
      && (r.value.pruned, r.value.seen) == PrunePages(seen, r.value.harvested, RANGE_COUNT)
      && r.after == u.(epg := u.epg[region := r.value.pruned])
    ensures !r.value.outcome.Updated? ==>
      r.value.seen == seen && r.after == UpdateEpgStep(s, region, RANGE_COUNT, now, start, net).after
  {
    var u := UpdateEpgStep(s, region, RANGE_COUNT, now, start, net);
    if !u.value.Updated? then Step(Collect(u.value, [], [], seen), u.after)
    else
      var pages := u.after.epg[region];
      var p := PrunePages(seen, pages, RANGE_COUNT);
      Step(Collect(Updated, pages, p.0, p.1), u.after.(epg := u.after.epg[region := p.0]))
  }

  /** A step of a run: what one region does to the state and the counter. */
  type Stepper = (Snapshot, string, map<string, nat>) -> Step<Collect>

  /** The step `get_all_epg_data` takes per region. The client's states are
      always ordered, so the second branch stands for no reachable state. */
  ghost function Collector(now: int, start: Stamp, net: Network): Stepper
  {
    (s: Snapshot, region: string, seen: map<string, nat>) =>
      if Ordered(s) then CollectStep(s, region, now, start, net, seen) else Step(Collect(Crashed, [], [], seen), s)
  }

  /** A run over `regions`, with the counter `seen` and the lists `all`
      collected before them: the first region that is not updated ends it. */
  ghost function RunFrom(step: Stepper, s: Snapshot, regions: seq<string>, seen: map<string, nat>,
                         all: seq<seq<Entry>>): Step<AllEpg>
    decreases |regions|
  {
    if regions == [] then Step(Collected(all), s)
    else
      var c := step(s, regions[0], seen);
      match c.value.outcome
      case Stopped(e) => Step(Halted(e), c.after)
      case Crashed => Step(Aborted, c.after)
      case Updated => RunFrom(step, c.after, regions[1..], c.value.seen, all + DataOf(c.value.pruned))
  }

  /** The state and counter before region `k`. */
  ghost function Before(step: Stepper, s: Snapshot, regions: seq<string>, seen: map<string, nat>, k: nat)
    : Step<map<string, nat>>
    requires k <= |regions|
    decreases k
  {
    if k == 0 then Step(seen, s)
    else
      var p := Before(step, s, regions, seen, k - 1);
      var c := step(p.after, regions[k - 1], p.value);
      Step(c.value.seen, c.after)
  }

  /** Region `k`'s step, taken in the state the regions before it left. */
  ghost function StepAt(step: Stepper, s: Snapshot, regions: seq<string>, seen: map<string, nat>, k: nat): Step<Collect>
    requires k < |regions|
  {
    var p := Before(step, s, regions, seen, k);
    step(p.after, regions[k], p.value)
  }

  /** The pages harvested over a run, before suppression. */
  ghost function Harvests(step: Stepper, s: Snapshot, regions: seq<string>, seen: map<string, nat>): seq<Page>
    decreases |regions|
  {
    if regions == [] then []
    else
      var c := step(s, regions[0], seen);
      if c.value.outcome.Updated? then c.value.harvested + Harvests(step, c.after, regions[1..], c.value.seen) else []
  }

  lemma {:induction false} BeforeShift(step: Stepper, s: Snapshot, regions: seq<string>, seen: map<string, nat>, k: nat)
    requires regions != [] && k < |regions|
    ensures var c := step(s, regions[0], seen);
      Before(step, s, regions, seen, k + 1) == Before(step, c.after, regions[1..], c.value.seen, k)
    decreases k
  {
    if k > 0 {
      BeforeShift(step, s, regions, seen, k - 1);
      assert regions[1..][k - 1] == regions[k];
    }
  }

  /** A run collects exactly when every region's step is an update. */
  lemma {:induction false} RunCollectsIffAllUpdated(step: Stepper, s: Snapshot, regions: seq<string>,
                                                    seen: map<string, nat>, all: seq<seq<Entry>>)
    ensures RunFrom(step, s, regions, seen, all).value.Collected? <==>
      forall k :: 0 <= k < |regions| ==> StepAt(step, s, regions, seen, k).value.outcome.Updated?
    decreases |regions|
  {
    if regions != [] {
      var c := step(s, regions[0], seen);
      assert StepAt(step, s, regions, seen, 0) == c;
      if c.value.outcome.Updated? {
        var rest := regions[1..];
        RunCollectsIffAllUpdated(step, c.after, rest, c.value.seen, all + DataOf(c.value.pruned));
        forall k | 0 < k < |regions|
          ensures StepAt(step, s, regions, seen, k) == StepAt(step, c.after, rest, c.value.seen, k - 1)
        {
          BeforeShift(step, s, regions, seen, k - 1);
          assert regions[k] == rest[k - 1];
        }
        if forall k :: 0 <= k < |rest| ==> StepAt(step, c.after, rest, c.value.seen, k).value.outcome.Updated? {
          forall k | 0 <= k < |regions|
            ensures StepAt(step, s, regions, seen, k).value.outcome.Updated?
          {
            if k > 0 {
              assert StepAt(step, c.after, rest, c.value.seen, k - 1).value.outcome.Updated?;
            }
          }
        } else {
          var j :| 0 <= j < |rest| && !StepAt(step, c.after, rest, c.value.seen, j).value.outcome.Updated?;
          assert !StepAt(step, s, regions, seen, j + 1).value.outcome.Updated?;
        }
      }
    }
  }

  /** A collected run hands out the "data" lists of all harvested pages,
      suppressed as one sequence with one counter. */
  lemma {:induction false} RunCollectsSuppressed(step: Stepper, s: Snapshot, regions: seq<string>,
                                                 seen: map<string, nat>, all: seq<seq<Entry>>)
    requires forall t, region, c :: step(t, region, c).value.outcome.Updated? ==>
      (step(t, region, c).value.pruned, step(t, region, c).value.seen)
        == PrunePages(c, step(t, region, c).value.harvested, RANGE_COUNT)
    requires RunFrom(step, s, regions, seen, all).value.Collected?
    ensures RunFrom(step, s, regions, seen, all).value.pages
      == all + DataOf(PrunePages(seen, Harvests(step, s, regions, seen), RANGE_COUNT).0)
    decreases |regions|
  {
    if regions == [] {
      assert all + DataOf([]) == all;
    } else {
      var c := step(s, regions[0], seen);
      var rest := Harvests(step, c.after, regions[1..], c.value.seen);
      RunCollectsSuppressed(step, c.after, regions[1..], c.value.seen, all + DataOf(c.value.pruned));
      PrunePagesAppend(seen, c.value.harvested, rest, RANGE_COUNT);
      DataOfAppend(c.value.pruned, PrunePages(c.value.seen, rest, RANGE_COUNT).0);
    }
  }

  /** Every state a run of the client's step reaches is ordered. */
  lemma {:induction false} BeforeOrdered(s: Snapshot, regions: seq<string>, seen: map<string, nat>, k: nat,
                                         now: int, start: Stamp, net: Network)
    requires Ordered(s) && k <= |regions|
    ensures Ordered(Before(Collector(now, start, net), s, regions, seen, k).after)
    decreases k
  {
    if k > 0 {
      BeforeOrdered(s, regions, seen, k - 1, now, start, net);
      var p := Before(Collector(now, start, net), s, regions, seen, k - 1);
      CollectorOrdered(p.after, regions[k - 1], p.value, now, start, net);
    }
  }

  lemma CollectorOrdered(s: Snapshot, region: string, seen: map<string, nat>, now: int, start: Stamp, net: Network)
    requires Ordered(s)
    ensures Ordered(Collector(now, start, net)(s, region, seen).after)
  {
  }

  /** `get_all_epg_data` collects exactly when every region's `update_epg`
      succeeds, each in the state the regions before it left; the lists it
      hands out are then those of every harvested page, suppressed over the
      whole run so that no channel keeps more than three entries in all. */
  lemma GetAllCollects(s: Snapshot, regions: seq<string>, now: int, start: Stamp, net: Network)
    requires Ordered(s)
    ensures forall k :: 0 <= k <= |regions| ==> Ordered(Before(Collector(now, start, net), s, regions, map[], k).after)
    ensures var step := Collector(now, start, net);
      && (RunFrom(step, s, regions, map[], []).value.Collected? <==>
            forall k :: 0 <= k < |regions| ==>
              UpdateEpgStep(Before(step, s, regions, map[], k).after, regions[k], RANGE_COUNT, now, start, net).value.Updated?)
      && (RunFrom(step, s, regions, map[], []).value.Collected? ==>
            RunFrom(step, s, regions, map[], []).value.pages
              == DataOf(PrunePages(map[], Harvests(step, s, regions, map[]), RANGE_COUNT).0))
  {
    var step := Collector(now, start, net);
    forall k | 0 <= k <= |regions| ensures Ordered(Before(step, s, regions, map[], k).after) {
      BeforeOrdered(s, regions, map[], k, now, start, net);
    }
    RunCollectsIffAllUpdated(step, s, regions, map[], []);
    forall k | 0 <= k < |regions|
      ensures StepAt(step, s, regions, map[], k).value.outcome
        == UpdateEpgStep(Before(step, s, regions, map[], k).after, regions[k], RANGE_COUNT, now, start, net).value
    {
      BeforeOrdered(s, regions, map[], k, now, start, net);
    }
    if RunFrom(step, s, regions, map[], []).value.Collected? {
      RunCollectsSuppressed(step, s, regions, map[], []);
      assert [] + DataOf(PrunePages(map[], Harvests(step, s, regions, map[]), RANGE_COUNT).0)
        == DataOf(PrunePages(map[], Harvests(step, s, regions, map[]), RANGE_COUNT).0);
    }
  }
}
