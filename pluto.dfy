/** The client: a pool of stream sessions used in turn, a metadata cache in
    front of the first of them, the per-region channel catalogs, and the guide
    pages per region. */
module Pluto {
  import opened Wrappers
  import opened Backend
  import opened Session
  import opened Catalog
  import Merge
  import opened Epg
  import opened Flow

  const STREAM_POOL_SIZE: nat := 10

  /** The slot handed out by the `k`th call of the round robin. */
  function SlotIndex(k: nat): (i: nat)
    ensures i < STREAM_POOL_SIZE
  {
    k % STREAM_POOL_SIZE
  }

  /** The slot of the `j`th call after the `start`th. */
  function SlotAfter(start: nat, j: nat): nat
  {
    SlotIndex(start + j)
  }

  /** The slots of the pool-size calls after the `start`th. */
  function SlotsFrom(start: nat): set<nat>
  {
    set j | 0 <= j < STREAM_POOL_SIZE :: SlotAfter(start, j)
  }

  /** Any run of pool-size consecutive calls uses every slot exactly once. */
  lemma RoundRobinCoversPool(start: nat)
    ensures forall j1, j2 :: 0 <= j1 < j2 < STREAM_POOL_SIZE ==> SlotAfter(start, j1) != SlotAfter(start, j2)
    ensures forall s :: 0 <= s < STREAM_POOL_SIZE ==> s in SlotsFrom(start)
  {
    var q := start / STREAM_POOL_SIZE;
    var r := start % STREAM_POOL_SIZE;
    assert start == q * STREAM_POOL_SIZE + r;
    forall j | 0 <= j < STREAM_POOL_SIZE
      ensures SlotAfter(start, j) == if r + j < STREAM_POOL_SIZE then r + j else r + j - STREAM_POOL_SIZE
    {
      if r + j < STREAM_POOL_SIZE {
        assert start + j == q * STREAM_POOL_SIZE + (r + j);
      } else {
        assert start + j == (q + 1) * STREAM_POOL_SIZE + (r + j - STREAM_POOL_SIZE);
      }
    }
    forall s | 0 <= s < STREAM_POOL_SIZE
      ensures s in SlotsFrom(start)
    {
      var j := if s >= r then s - r else s + STREAM_POOL_SIZE - r;
      assert SlotAfter(start, j) == s;
    }
  }

  class Client {
    const username: Option<string>
    const password: Option<string>
    /** The stream sessions, each with its own device identity. */
    const pool: seq<StreamSession>
    var poolIndex: nat
    /** Region -> accepted start answer used for metadata, and its time. */
    var responseList: map<string, BootResponse>
    var sessionAt: map<string, int>
    /** Region -> the guide pages last harvested. */
    var epgData: map<string, seq<Page>>
    /** Region -> the catalog last built; `channelOrder` is the order in which
        the regions were first stored, which a dictionary keeps. */
    var allChannels: map<string, seq<Station>>
    var channelOrder: seq<string>

    ghost predicate Valid()
      reads this
    {
      && |pool| == STREAM_POOL_SIZE
      && (forall i, j :: 0 <= i < j < |pool| ==> pool[i] != pool[j])
      && Merge.WellOrdered(channelOrder, allChannels)
    }

    /** The state metadata and guide requests read and write. */
    ghost function Snap(): Snapshot
      reads this, pool
      requires |pool| > 0
    {
      Snapshot(responseList, sessionAt, pool[0].responseList, pool[0].sessionAt, allChannels, channelOrder, epgData)
    }

    /** `deviceIds` stands for the random client ids of the pool's sessions. */
    constructor (deviceIds: seq<string>, username: Option<string>, password: Option<string>)
      requires |deviceIds| == STREAM_POOL_SIZE
      ensures Valid()
      ensures forall i :: 0 <= i < STREAM_POOL_SIZE ==>
        fresh(pool[i]) && pool[i].clientId == deviceIds[i] && pool[i].responseList == map[] && pool[i].sessionAt == map[]
      ensures poolIndex == 0 && responseList == map[] && sessionAt == map[]
      ensures epgData == map[] && allChannels == map[] && channelOrder == []
    {
      var slots: seq<StreamSession> := [];
      for i := 0 to STREAM_POOL_SIZE
        invariant |slots| == i
        invariant forall a, b :: 0 <= a < b < i ==> slots[a] != slots[b]
        invariant forall a :: 0 <= a < i ==>
          fresh(slots[a]) && slots[a].clientId == deviceIds[a] && slots[a].responseList == map[] && slots[a].sessionAt == map[]
      {
        var s := new StreamSession(deviceIds[i], username, password);
        slots := slots + [s];
      }
      this.username := username;
      this.password := password;
      pool := slots;
      poolIndex := 0;
      responseList := map[];
      sessionAt := map[];
      epgData := map[];
      allChannels := map[];
      channelOrder := [];
    }

    /** `_next_slot`: the slot at the counter, modulo the pool size, and the
        counter moves on by one. */
    method NextSlot() returns (slot: StreamSession)
      requires Valid()
      modifies this
      ensures Valid()
      ensures slot == pool[SlotIndex(old(poolIndex))] && poolIndex == old(poolIndex) + 1
      ensures responseList == old(responseList) && sessionAt == old(sessionAt)
      ensures epgData == old(epgData) && allChannels == old(allChannels) && channelOrder == old(channelOrder)
    {
      slot := pool[poolIndex % STREAM_POOL_SIZE];
      poolIndex := poolIndex + 1;
    }

    /** `get_stream_token`: boot the next slot for `region` and hand out its
        session token together with the slot, or the boot's error. */
    method GetStreamToken(region: string, now: int, net: Network)
      returns (token: Option<string>, slot: Option<StreamSession>, error: Option<Error>)
      requires Valid()
      modifies this, pool[SlotIndex(poolIndex)]
      ensures Valid() && poolIndex == old(poolIndex) + 1
      ensures var s := pool[SlotIndex(old(poolIndex))];
        var step := BootStep(old(s.responseList), old(s.sessionAt), region, now, net.start(region));
        && s.responseList == step.responses && s.sessionAt == step.issuedAt
        && (step.result.Err? ==> token.None? && slot.None? && error == Some(step.result.error))
        && (step.result.Ok? ==> token == step.result.value.sessionToken && slot == Some(s) && error.None?)
      ensures responseList == old(responseList) && sessionAt == old(sessionAt)
      ensures epgData == old(epgData) && allChannels == old(allChannels) && channelOrder == old(channelOrder)
    {
      var s := NextSlot();
      var r, _ := s.Boot(region, now, net.start(region));
      if r.Err? {
        return None, None, Some(r.error);
      }
      return r.value.sessionToken, Some(s), None;
    }

    /** `resp_data`: the client's own four-hour cache of start answers, in
        front of the first pool slot's boot. */
    method RespData(region: string, now: int, net: Network) returns (r: Result<BootResponse, Error>)
      requires Valid()
      modifies this, pool[0]
      ensures Valid() && poolIndex == old(poolIndex)
      ensures Step(r, Snap()) == RespStep(old(Snap()), region, now, net)
    {
      if region in responseList && region in sessionAt && now - sessionAt[region] < FOUR_HOURS {
        return Ok(responseList[region]);
      }
      var resp, _ := pool[0].Boot(region, now, net.start(region));
      if resp.Err? {
        return resp;
      }
      responseList := responseList[region := resp.value];
      sessionAt := sessionAt[region := now];
      r := resp;
    }

    /** `channels_all`: the merge of every stored catalog; the stored records
        take the new numbers. */
    method ChannelsAll() returns (merged: seq<Station>)
      requires Valid()
      modifies this
      ensures Valid()
      ensures var m := Merge.MergeAll(old(channelOrder), old(allChannels));
        merged == m.channels && allChannels == m.stored && channelOrder == old(channelOrder)
      ensures poolIndex == old(poolIndex) && responseList == old(responseList) && sessionAt == old(sessionAt)
      ensures epgData == old(epgData)
    {
      var m := Merge.ChannelsAll(channelOrder, allChannels);
      Merge.MergedStoredShape(channelOrder, allChannels);
      allChannels := m.stored;
      merged := m.channels;
    }

    /** `channels`: "all" asks for the merge; any other region is booted, its
        channel and category listings fetched, and its sorted catalog stored
        under the region and returned. */
    method Channels(region: string, now: int, net: Network) returns (r: Reply<seq<Station>>)
      requires Valid()
      modifies this, pool[0]
      ensures Valid() && poolIndex == old(poolIndex)
      ensures Step(r, Snap()) == ChannelsStep(old(Snap()), region, now, net)
    {
      if region == "all" {
        var merged := ChannelsAll();
        return Done(merged);
      }
      r := RegionChannels(region, now, net);
    }

    /** `channels` for one region: a failed boot, a missing token or a failed
        listing leaves the stored catalogs as they are. */
    method RegionChannels(region: string, now: int, net: Network) returns (r: Reply<seq<Station>>)
      requires Valid()
      modifies this, pool[0]
      ensures Valid() && poolIndex == old(poolIndex)
      ensures Step(r, Snap()) == RegionChannelsStep(old(Snap()), region, now, net)
    {
      var resp := RespData(region, now, net);
      if resp.Err? {
        return Failed(Some(resp.error));
      }
      var token := resp.value.sessionToken;
      if token.None? {
        return Failed(None);
      }
      var listing := Accept(net.channelList(region));
      if listing.Err? {
        return Failed(Some(listing.error));
      }
      var categories := Accept(net.categoryList(region));
      if categories.Err? {
        return Failed(Some(categories.error));
      }
      var groups := CategoryMap(categories.value);
      var stations := BuildStations(region, listing.value, groups, categories.value);
      var sorted := SortByNumber(stations);
      Merge.StoreWellOrdered(channelOrder, allChannels, region, sorted);
      if region !in allChannels {
        channelOrder := channelOrder + [region];
      }
      allChannels := allChannels[region := sorted];
      r := Done(sorted);
    }

    /** `update_epg`: boot, fetch the region's catalog, split its ids into
        batches and harvest `rangeCount` windows from `start`; the pages are
        stored for the region only when every request succeeded. */
    method UpdateEpg(region: string, rangeCount: nat, now: int, start: Stamp, net: Network)
      returns (outcome: EpgOutcome)
      requires Valid()
      modifies this, pool[0]
      ensures Valid() && poolIndex == old(poolIndex)
      ensures Step(outcome, Snap()) == UpdateEpgStep(old(Snap()), region, rangeCount, now, start, net)
    {
      var resp := RespData(region, now, net);
      if resp.Err? {
        return Stopped(Some(resp.error));
      }
      var token := resp.value.sessionToken;
      if token.None? {
        return Stopped(None);
      }
      var list := Channels(region, now, net);
      if list.Failed? {
        // without stations the id loop would iterate over nothing at all
        return if list.error.Some? then Stopped(list.error) else Crashed;
      }
      var idValues := Ids(list.value);
      outcome := HarvestRegion(region, rangeCount, start, net, Chunks(idValues));
    }

    /** The window loops of `update_epg` over the region's batches; the pages
        are stored for the region only when every request succeeded. */
    method HarvestRegion(region: string, rangeCount: nat, start: Stamp, net: Network, batches: seq<seq<string>>)
      returns (outcome: EpgOutcome)
      requires Valid()
      modifies this
      ensures Valid() && poolIndex == old(poolIndex)
      ensures Step(outcome, Snap()) == HarvestStep(old(Snap()), region, Windows(net, region, start, batches, rangeCount))
    {
      var h := FetchWindows(net, region, start, batches, rangeCount);
      match h {
        case Harvest(pages) =>
          epgData := epgData[region := pages];
          outcome := Updated;
        case Broken(e) =>
          outcome := Stopped(Some(e));
        case Unbound =>
          outcome := Crashed;
      }
    }

    /** One region of `get_all_epg_data`: update its guide, then suppress
        over its pages with the counter carried from the regions before; the
        suppressed pages replace the stored ones. */
    method CollectRegion(region: string, now: int, start: Stamp, net: Network, seen: map<string, nat>)
      returns (outcome: EpgOutcome, harvested: seq<Page>, pruned: seq<Page>, seen': map<string, nat>)
      requires Valid()
      modifies this, pool[0]
      ensures Valid() && poolIndex == old(poolIndex)
      ensures Step(Collect(outcome, harvested, pruned, seen'), Snap()) == CollectStep(old(Snap()), region, now, start, net, seen)
    {
      outcome := UpdateEpg(region, RANGE_COUNT, now, start, net);
      if !outcome.Updated? {
        return outcome, [], [], seen;
      }
      harvested := epgData[region];
      pruned, seen' := PruneRun(harvested, seen, RANGE_COUNT);
      epgData := epgData[region := pruned];
    }

    /** `get_all_epg_data`: update each region's guide with three windows,
        keeping a channel's entries only until it has three over the whole
        run; the kept "data" lists are collected, and the first failure of an
        update is returned instead. */
    method GetAllEpgData(regions: seq<string>, now: int, start: Stamp, net: Network) returns (result: AllEpg)
      requires Valid()
      modifies this, pool[0]
      ensures Valid() && poolIndex == old(poolIndex)
      ensures Step(result, Snap()) == RunFrom(Collector(now, start, net), old(Snap()), regions, map[], [])
    {
      var all: seq<seq<Entry>> := [];
      var seen: map<string, nat> := map[];
      for k := 0 to |regions|
        invariant Valid() && poolIndex == old(poolIndex)
        invariant RunFrom(Collector(now, start, net), Snap(), regions[k..], seen, all)
          == RunFrom(Collector(now, start, net), old(Snap()), regions, map[], [])
      {
        ghost var before := Snap();
        var outcome, harvested, pruned, counter := CollectRegion(regions[k], now, start, net, seen);
        assert Collector(now, start, net)(before, regions[k], seen) == Step(Collect(outcome, harvested, pruned, counter), Snap());
        assert regions[k..][0] == regions[k] && regions[k..][1..] == regions[k + 1..];
        match outcome {
          case Stopped(e) => return Halted(e);
          case Crashed => return Aborted;
          case Updated =>
        }
        seen := counter;
        all := all + DataOf(pruned);
      }
      result := Collected(all);
    }
  }
}
