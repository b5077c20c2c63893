/** One region's channel catalog, built from the channel listing and the
    category listing once both requests have succeeded. */
module Catalog {
  import opened Wrappers
  import opened Backend
  import opened Numbering

  const COLOR_LOGO_PNG: string := "colorLogoPNG"

  /** A catalog record; `countryCode` is the region it was fetched for. */
  datatype Station = Station(
    id: string, name: string, slug: string, tmsid: string, summary: string,
    group: Option<string>, countryCode: string, number: int, logo: Option<string>)

  /** The category a channel is filed under: the name of the LAST category
      whose channel ids list it, or None when no category lists it. */
  function GroupOf(cats: seq<CategoryElem>, id: string): (g: Option<string>)
    ensures g.None? <==> forall k :: 0 <= k < |cats| ==> id !in cats[k].channelIDs
    ensures g.Some? ==>
      exists k :: 0 <= k < |cats| && id in cats[k].channelIDs && cats[k].name == g.value
        && forall k' :: k < k' < |cats| ==> id !in cats[k'].channelIDs
  {
    if cats == [] then None
    else if id in cats[|cats| - 1].channelIDs then Some(cats[|cats| - 1].name)
    else GroupOf(cats[..|cats| - 1], id)
  }

  /** The channel-id -> category-name dictionary, filled category by category,
      channel by channel, so a later category overwrites an earlier one. */
  method CategoryMap(cats: seq<CategoryElem>) returns (groups: map<string, string>)
    ensures forall id :: Lookup(groups, id) == GroupOf(cats, id)
  {
    groups := map[];
    for i := 0 to |cats|
      invariant forall id :: Lookup(groups, id) == GroupOf(cats[..i], id)
    {
      var category := cats[i].name;
      var channelIDs := cats[i].channelIDs;
      assert cats[..i + 1][..i] == cats[..i];
      for j := 0 to |channelIDs|
        invariant forall id :: Lookup(groups, id) ==
                               if id in channelIDs[..j] then Some(category) else GroupOf(cats[..i], id)
      {
        assert channelIDs[..j + 1] == channelIDs[..j] + [channelIDs[j]];
        groups := groups[channelIDs[j] := category];
      }
      assert channelIDs[..|channelIDs|] == channelIDs;
    }
    assert cats[..|cats|] == cats;
  }

  /** The url of the first image of type colorLogoPNG, or None. */
  function ColorLogo(images: seq<Image>): (logo: Option<string>)
    ensures logo.None? <==> forall k :: 0 <= k < |images| ==> images[k].kind != COLOR_LOGO_PNG
    ensures logo.Some? ==>
      exists k :: 0 <= k < |images| && images[k].kind == COLOR_LOGO_PNG && images[k].url == logo.value
        && forall k' :: 0 <= k' < k ==> images[k'].kind != COLOR_LOGO_PNG
  {
    if images == [] then None
    else if images[0].kind == COLOR_LOGO_PNG then Some(images[0].url)
    else
      var rest := ColorLogo(images[1..]);
      assert rest.Some? ==> exists k :: (1 <= k < |images| && images[k].kind == COLOR_LOGO_PNG
                                         && images[k].url == rest.value
                                         && forall k' :: 0 <= k' < k ==> images[k'].kind != COLOR_LOGO_PNG);
      rest
  }

  function SourceNumbers(elems: seq<ChannelElem>): (ns: seq<int>)
    ensures |ns| == |elems|
  {
    seq(|elems|, i requires 0 <= i < |elems| => elems[i].number)
  }

  function NumbersOf(stations: seq<Station>): set<int>
  {
    set s | s in stations :: s.number
  }

  function MakeStation(region: string, elem: ChannelElem, group: Option<string>, number: int): Station
  {
    Station(elem.id, elem.name, elem.slug, elem.tmsid, elem.summary, group, region, number, ColorLogo(elem.images))
  }

  /** The stations in listing order: each listed channel with its category,
      its logo, and its number bumped past the numbers of the stations before it. */
  function Stations(region: string, elems: seq<ChannelElem>, cats: seq<CategoryElem>): (r: seq<Station>)
    ensures |r| == |elems|
  {
    var numbers := AssignNumbers(SourceNumbers(elems));
    seq(|elems|, i requires 0 <= i < |elems| =>
      MakeStation(region, elems[i], GroupOf(cats, elems[i].id), numbers[i]))
  }

  lemma NumbersOfIsElems(stations: seq<Station>, numbers: seq<int>)
    requires |stations| == |numbers|
    requires forall k :: 0 <= k < |stations| ==> stations[k].number == numbers[k]
    ensures NumbersOf(stations) == Elems(numbers)
  {
    forall x | x in Elems(numbers)
      ensures x in NumbersOf(stations)
    {
      var k :| 0 <= k < |numbers| && numbers[k] == x;
      assert stations[k] in stations;
    }
  }

  /** The i-th station is built from the i-th listing entry and the i-th
      assigned number, which is that entry's number bumped past the numbers of
      the stations before it. */
  lemma StationAt(region: string, elems: seq<ChannelElem>, cats: seq<CategoryElem>, i: nat)
    requires i < |elems|
    ensures var r := Stations(region, elems, cats);
      r[i] == MakeStation(region, elems[i], GroupOf(cats, elems[i].id),
                          Bump(elems[i].number, NumbersOf(r[..i])))
  {
    var r := Stations(region, elems, cats);
    var numbers := AssignNumbers(SourceNumbers(elems));
    AssignNumbersAt(SourceNumbers(elems), i);
    NumbersOfIsElems(r[..i], numbers[..i]);
  }

  lemma StationStep(region: string, elems: seq<ChannelElem>, cats: seq<CategoryElem>, i: nat,
                    stations: seq<Station>, number: int)
    requires i < |elems|
    requires stations == Stations(region, elems, cats)[..i]
    requires number == Bump(elems[i].number, NumbersOf(stations))
    ensures stations + [MakeStation(region, elems[i], GroupOf(cats, elems[i].id), number)]
            == Stations(region, elems, cats)[..i + 1]
  {
    StationAt(region, elems, cats, i);
  }

  /** The station loop: `existing_numbers` is recomputed from the stations built
      so far and the listed number is bumped until it is not among them. */
  method BuildStations(
    region: string, elems: seq<ChannelElem>, groups: map<string, string>, ghost cats: seq<CategoryElem>)
    returns (stations: seq<Station>)
    requires forall id :: Lookup(groups, id) == GroupOf(cats, id)
    ensures stations == Stations(region, elems, cats)
  {
    ghost var target := Stations(region, elems, cats);
    stations := [];
    for i := 0 to |elems|
      invariant stations == target[..i]
    {
      var elem := elems[i];
      var existing := NumbersOf(stations);
      var number := BumpUntilFree(elem.number, existing);
      StationStep(region, elems, cats, i, stations, number);
      assert Lookup(groups, elem.id) == GroupOf(cats, elem.id);
      stations := stations + [MakeStation(region, elem, Lookup(groups, elem.id), number)];
    }
    assert target[..|elems|] == target;
  }

  /** Within one region no two stations share a number. */
  lemma StationNumbersDistinct(region: string, elems: seq<ChannelElem>, cats: seq<CategoryElem>)
    ensures DistinctNumbers(Stations(region, elems, cats))
  {
    AssignNumbersDistinct(SourceNumbers(elems));
  }

  /** Each station's number is at least its listed number, and is the least such
      value not taken by an earlier station of the region. */
  lemma StationNumberLeastFree(region: string, elems: seq<ChannelElem>, cats: seq<CategoryElem>, i: nat)
    requires i < |elems|
    ensures var r := Stations(region, elems, cats);
      elems[i].number <= r[i].number
      && (forall k :: 0 <= k < i ==> r[k].number != r[i].number)
      && (forall v :: elems[i].number <= v < r[i].number ==> v in NumbersOf(r[..i]))
  {
    var r := Stations(region, elems, cats);
    StationAt(region, elems, cats, i);
    AssignNumbersLeastFree(SourceNumbers(elems), i);
  }

  predicate Ascending(s: seq<Station>)
  {
    forall i, j :: 0 <= i < j < |s| ==> s[i].number <= s[j].number
  }

  predicate DistinctNumbers(s: seq<Station>)
  {
    forall i, j :: 0 <= i < j < |s| ==> s[i].number != s[j].number
  }

  lemma NumbersOfMembers(r: seq<Station>, s: seq<Station>, x: Station)
    requires forall y :: y in r <==> y == x || y in s
    ensures NumbersOf(r) == NumbersOf(s) + {x.number}
  {
    assert x in r;
  }

  lemma ConsAscending(h: Station, t: seq<Station>)
    requires Ascending(t) && forall y :: y in t ==> h.number <= y.number
    ensures Ascending([h] + t)
  {
    forall i, j | 0 <= i < j < |[h] + t|
      ensures ([h] + t)[i].number <= ([h] + t)[j].number
    {
      assert t[j - 1] in t;
    }
  }

  /** Insertion into a list ascending by number, before the first station whose
      number is not smaller (so earlier stations stay first among equals). */
  function Insert(x: Station, s: seq<Station>): (r: seq<Station>)
    requires Ascending(s)
    ensures Ascending(r)
    ensures forall y :: y in r <==> y == x || y in s
  {
    if s == [] || x.number <= s[0].number then
      assert forall y :: y in s ==> x.number <= y.number by {
        forall y | y in s ensures x.number <= y.number {
          var k :| 0 <= k < |s| && s[k] == y;
        }
      }
      ConsAscending(x, s);
      [x] + s
    else
      assert s == [s[0]] + s[1..];
      assert Ascending(s[1..]);
      var rest := Insert(x, s[1..]);
      assert forall y :: y in rest ==> s[0].number <= y.number;
      ConsAscending(s[0], rest);
      [s[0]] + rest
  }

  /** Insertion adds exactly the one station. */
  lemma {:induction false} InsertPermutes(x: Station, s: seq<Station>)
    requires Ascending(s)
    ensures multiset(Insert(x, s)) == multiset(s) + multiset{x}
  {
    if s != [] && x.number > s[0].number {
      assert s == [s[0]] + s[1..];
      InsertPermutes(x, s[1..]);
    }
  }

  lemma ConsDistinct(h: Station, t: seq<Station>)
    requires DistinctNumbers(t) && h.number !in NumbersOf(t)
    ensures DistinctNumbers([h] + t)
  {
    forall j | 0 < j < |[h] + t|
      ensures ([h] + t)[0].number != ([h] + t)[j].number
    {
      assert t[j - 1] in t;
    }
  }

  /** Inserting a station whose number is new keeps the numbers distinct. */
  lemma {:induction false} InsertKeepsDistinct(x: Station, s: seq<Station>)
    requires Ascending(s) && DistinctNumbers(s) && x.number !in NumbersOf(s)
    ensures DistinctNumbers(Insert(x, s))
  {
    if s != [] && x.number > s[0].number {
      assert s == [s[0]] + s[1..];
      assert NumbersOf(s[1..]) <= NumbersOf(s);
      InsertKeepsDistinct(x, s[1..]);
      var rest := Insert(x, s[1..]);
      NumbersOfMembers(rest, s[1..], x);
      assert s[0].number !in NumbersOf(s[1..]);
      ConsDistinct(s[0], rest);
    } else {
      ConsDistinct(x, s);
    }
  }

  /** `sorted(stations, key=number)`: ascending and a permutation of its input. */
  function SortByNumber(s: seq<Station>): (r: seq<Station>)
    ensures Ascending(r)
    ensures multiset(r) == multiset(s)
    ensures forall y :: y in r <==> y in s
  {
    if s == [] then []
    else
      assert s == [s[0]] + s[1..];
      InsertPermutes(s[0], SortByNumber(s[1..]));
      Insert(s[0], SortByNumber(s[1..]))
  }

  /** Sorting stations whose numbers are distinct yields distinct numbers. */
  lemma {:induction false} SortKeepsDistinct(s: seq<Station>)
    requires DistinctNumbers(s)
    ensures DistinctNumbers(SortByNumber(s))
  {
    if s != [] {
      assert s == [s[0]] + s[1..];
      SortKeepsDistinct(s[1..]);
      var rest := SortByNumber(s[1..]);
      assert NumbersOf(rest) == NumbersOf(s[1..]);
      assert s[0].number !in NumbersOf(rest);
      InsertKeepsDistinct(s[0], rest);
    }
  }

  /** The catalog a region stores and returns: its stations sorted by number. */
  function RegionCatalog(region: string, elems: seq<ChannelElem>, cats: seq<CategoryElem>): seq<Station>
  {
    SortByNumber(Stations(region, elems, cats))
  }

  /** The catalog is strictly ascending by number. */
  lemma RegionCatalogAscending(region: string, elems: seq<ChannelElem>, cats: seq<CategoryElem>)
    ensures forall i, j :: 0 <= i < j < |RegionCatalog(region, elems, cats)| ==>
      RegionCatalog(region, elems, cats)[i].number < RegionCatalog(region, elems, cats)[j].number
  {
    StationNumbersDistinct(region, elems, cats);
    SortKeepsDistinct(Stations(region, elems, cats));
  }

  /** The catalog holds exactly the built stations, each with the fields of
      its listing entry, a number no smaller than the listed one, the last
      category listing it and its colour logo. */
  lemma RegionCatalogEntries(region: string, elems: seq<ChannelElem>, cats: seq<CategoryElem>)
    ensures multiset(RegionCatalog(region, elems, cats)) == multiset(Stations(region, elems, cats))
    ensures forall s :: s in RegionCatalog(region, elems, cats) ==>
      exists i :: (0 <= i < |elems| && s.id == elems[i].id
                   && s.name == elems[i].name && s.countryCode == region
                   && elems[i].number <= s.number
                   && s.group == GroupOf(cats, elems[i].id)
                   && s.logo == ColorLogo(elems[i].images))
  {
    var st := Stations(region, elems, cats);
    forall s | s in RegionCatalog(region, elems, cats)
      ensures exists i :: (0 <= i < |elems| && s.id == elems[i].id
                           && s.name == elems[i].name && s.countryCode == region
                           && elems[i].number <= s.number
                           && s.group == GroupOf(cats, elems[i].id)
                           && s.logo == ColorLogo(elems[i].images))
    {
      var i :| 0 <= i < |st| && st[i] == s;
      AssignNumbersLeastFree(SourceNumbers(elems), i);
    }
  }
}
