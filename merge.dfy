/** The multi-region catalog: every stored region catalog concatenated in the
    order the regions were first stored, reduced to the first record of each
    channel id, offset by region, and renumbered so that no two records share a
    number. The records it renumbers are the very records stored per region, so
    the new numbers are written back into the stored catalogs too. */
module Merge {
  import opened Wrappers
  import opened Text
  import opened Numbering
  import opened Catalog

  /** The address of one stored record: region key and position in that
      region's catalog. */
  datatype Ref = Ref(region: string, pos: nat)

  /** The keys of the stored catalogs, each once, in insertion order. */
  ghost predicate WellOrdered(order: seq<string>, m: map<string, seq<Station>>)
  {
    && (forall i, j :: 0 <= i < j < |order| ==> order[i] != order[j])
    && m.Keys == set c | c in order
  }

  /** Storing a catalog under a region, appending the region to the order when
      it is new, keeps the order and the keys in step. */
  lemma StoreWellOrdered(order: seq<string>, m: map<string, seq<Station>>, region: string, v: seq<Station>)
    requires WellOrdered(order, m)
    ensures region in m ==> WellOrdered(order, m[region := v])
    ensures region !in m ==> WellOrdered(order + [region], m[region := v])
  {
    if region !in m {
      assert (set c | c in order + [region]) == (set c | c in order) + {region};
    }
  }

  predicate ValidRef(m: map<string, seq<Station>>, r: Ref)
  {
    r.region in m && r.pos < |m[r.region]|
  }

  predicate AllValid(m: map<string, seq<Station>>, refs: seq<Ref>)
  {
    forall r :: r in refs ==> ValidRef(m, r)
  }

  function Deref(m: map<string, seq<Station>>, r: Ref): Station
    requires ValidRef(m, r)
  {
    m[r.region][r.pos]
  }

  function RefsOf(region: string, n: nat): (refs: seq<Ref>)
    ensures |refs| == n
    ensures forall j :: 0 <= j < n ==> refs[j] == Ref(region, j)
  {
    seq(n, j requires 0 <= j < n => Ref(region, j))
  }

  /** `for key, val in all_channels.items(): all_channel_list.extend(val)`, as addresses. */
  function AllRefs(order: seq<string>, m: map<string, seq<Station>>): (refs: seq<Ref>)
    requires forall c :: c in order ==> c in m
    ensures AllValid(m, refs)
    ensures forall r :: r in refs ==> r.region in order
  {
    if order == [] then []
    else
      var c := order[|order| - 1];
      AllRefs(order[..|order| - 1], m) + RefsOf(c, |m[c]|)
  }

  /** Addresses in `order` are pairwise distinct when the regions are. */
  lemma {:induction false} AllRefsDistinct(order: seq<string>, m: map<string, seq<Station>>)
    requires forall c :: c in order ==> c in m
    requires forall i, j :: 0 <= i < j < |order| ==> order[i] != order[j]
    ensures forall p, q :: 0 <= p < q < |AllRefs(order, m)| ==> AllRefs(order, m)[p] != AllRefs(order, m)[q]
  {
    if order != [] {
      var init := order[..|order| - 1];
      var c := order[|order| - 1];
      AllRefsDistinct(init, m);
      assert c !in init;
      var a := AllRefs(init, m);
      var b := RefsOf(c, |m[c]|);
      var refs := a + b;
      assert refs == AllRefs(order, m);
      forall p, q | 0 <= p < q < |refs|
        ensures refs[p] != refs[q]
      {
        if q < |a| {
          assert refs[p] == a[p] && refs[q] == a[q];
        } else if p >= |a| {
          assert refs[p] == b[p - |a|] && refs[q] == b[q - |a|];
        } else {
          assert refs[p] == a[p] && a[p] in a;
          assert refs[q] == b[q - |a|];
        }
      }
    }
  }

  function IdsOf(m: map<string, seq<Station>>, refs: seq<Ref>): set<string>
    requires AllValid(m, refs)
  {
    set r | r in refs :: Deref(m, r).id
  }

  lemma IdsOfSnoc(m: map<string, seq<Station>>, refs: seq<Ref>, r: Ref)
    requires AllValid(m, refs) && ValidRef(m, r)
    ensures AllValid(m, refs + [r])
    ensures IdsOf(m, refs + [r]) == IdsOf(m, refs) + {Deref(m, r).id}
  {
    assert forall q :: q in refs + [r] <==> q in refs || q == r;
  }

  /** `[d for d in all if d['id'] not in seen and not seen.add(d['id'])]`:
      the first record of every channel id, in order. */
  function FirstById(m: map<string, seq<Station>>, refs: seq<Ref>): (f: seq<Ref>)
    requires AllValid(m, refs)
    ensures forall r :: r in f ==> r in refs
    ensures IdsOf(m, f) == IdsOf(m, refs)
    ensures forall i, j :: 0 <= i < j < |f| ==> Deref(m, f[i]).id != Deref(m, f[j]).id
  {
    if refs == [] then []
    else
      var init := refs[..|refs| - 1];
      var last := refs[|refs| - 1];
      assert forall r :: r in init ==> r in refs;
      var f := FirstById(m, init);
      assert refs == init + [last];
      IdsOfSnoc(m, init, last);
      if Deref(m, last).id in IdsOf(m, f) then f
      else
        assert forall i :: 0 <= i < |f| ==> f[i] in f;
        IdsOfSnoc(m, f, last);
        f + [last]
  }

  /** `ps` gives, for each record of `f`, a position of `refs` holding it
      where its id occurs for the first time, the positions strictly
      increasing. */
  predicate StandsAt(m: map<string, seq<Station>>, refs: seq<Ref>, f: seq<Ref>, ps: seq<nat>)
    requires AllValid(m, refs)
  {
    && |ps| == |f|
    && (forall i :: 0 <= i < |ps| ==> ps[i] < |refs| && refs[ps[i]] == f[i] && FirstOfId(m, refs, ps[i]))
    && (forall i, j :: 0 <= i < j < |ps| ==> ps[i] < ps[j])
  }

  /** Where the kept records stand in the input: each is the first record
      of its id, and they keep the input order. */
  function KeptPositions(m: map<string, seq<Station>>, refs: seq<Ref>): (ps: seq<nat>)
    requires AllValid(m, refs)
    ensures StandsAt(m, refs, FirstById(m, refs), ps)
  {
    if refs == [] then []
    else
      var init := refs[..|refs| - 1];
      assert forall r :: r in init ==> r in refs;
      var ps := KeptPositions(m, init);
      FirstByIdSnocShape(m, refs);
      StandsAtSnoc(m, refs, ps);
      if Deref(m, refs[|refs| - 1]).id in IdsOf(m, init) then ps else ps + [|refs| - 1]
  }

  lemma StandsAtSnoc(m: map<string, seq<Station>>, refs: seq<Ref>, ps: seq<nat>)
    requires AllValid(m, refs) && refs != [] && AllValid(m, refs[..|refs| - 1])
    requires StandsAt(m, refs[..|refs| - 1], FirstById(m, refs[..|refs| - 1]), ps)
    ensures StandsAt(m, refs, FirstById(m, refs[..|refs| - 1]), ps)
    ensures Deref(m, refs[|refs| - 1]).id !in IdsOf(m, refs[..|refs| - 1]) ==>
      StandsAt(m, refs, FirstById(m, refs[..|refs| - 1]) + [refs[|refs| - 1]], ps + [|refs| - 1])
  {
    var init := refs[..|refs| - 1];
    FirstOfIdPrefix(m, refs, ps);
    if Deref(m, refs[|refs| - 1]).id !in IdsOf(m, init) {
      LastFirstOfId(m, refs);
    }
  }

  /** The filter over one more record keeps it exactly when its id is new. */
  lemma FirstByIdSnocShape(m: map<string, seq<Station>>, refs: seq<Ref>)
    requires AllValid(m, refs) && refs != []
    ensures AllValid(m, refs[..|refs| - 1])
    ensures FirstById(m, refs) == if Deref(m, refs[|refs| - 1]).id in IdsOf(m, refs[..|refs| - 1])
      then FirstById(m, refs[..|refs| - 1]) else FirstById(m, refs[..|refs| - 1]) + [refs[|refs| - 1]]
  {
    assert forall r :: r in refs[..|refs| - 1] ==> r in refs;
  }

  lemma FirstOfIdPrefix(m: map<string, seq<Station>>, refs: seq<Ref>, ps: seq<nat>)
    requires AllValid(m, refs) && refs != [] && AllValid(m, refs[..|refs| - 1])
    requires forall i :: 0 <= i < |ps| ==> ps[i] < |refs| - 1 && FirstOfId(m, refs[..|refs| - 1], ps[i])
    ensures forall i :: 0 <= i < |ps| ==> FirstOfId(m, refs, ps[i])
  {
    var init := refs[..|refs| - 1];
    forall i | 0 <= i < |ps| ensures FirstOfId(m, refs, ps[i]) {
      assert forall q :: 0 <= q <= ps[i] ==> refs[q] == init[q];
    }
  }

  lemma LastFirstOfId(m: map<string, seq<Station>>, refs: seq<Ref>)
    requires AllValid(m, refs) && refs != [] && AllValid(m, refs[..|refs| - 1])
    requires Deref(m, refs[|refs| - 1]).id !in IdsOf(m, refs[..|refs| - 1])
    ensures FirstOfId(m, refs, |refs| - 1)
  {
    var init := refs[..|refs| - 1];
    forall q | 0 <= q < |refs| - 1
      ensures Deref(m, refs[q]).id != Deref(m, refs[|refs| - 1]).id
    {
      assert refs[q] == init[q] && init[q] in init;
    }
  }

  /** No record before position `p` has the id of the record at `p`. */
  predicate FirstOfId(m: map<string, seq<Station>>, refs: seq<Ref>, p: nat)
    requires AllValid(m, refs) && p < |refs|
  {
    forall q :: 0 <= q < p ==> Deref(m, refs[q]).id != Deref(m, refs[p]).id
  }

  /** `r` occurs in `refs` at a position where its id occurs for the first time. */
  predicate KeptFirst(m: map<string, seq<Station>>, refs: seq<Ref>, r: Ref)
    requires AllValid(m, refs)
  {
    exists p :: 0 <= p < |refs| && refs[p] == r && FirstOfId(m, refs, p)
  }

  /** A record first of its id in a prefix is first of its id in the whole. */
  lemma KeptFirstExtends(m: map<string, seq<Station>>, refs: seq<Ref>, r: Ref)
    requires AllValid(m, refs) && refs != [] && AllValid(m, refs[..|refs| - 1])
    requires KeptFirst(m, refs[..|refs| - 1], r)
    ensures KeptFirst(m, refs, r)
  {
    var init := refs[..|refs| - 1];
    var p :| 0 <= p < |init| && init[p] == r && FirstOfId(m, init, p);
    assert forall q :: 0 <= q <= p ==> refs[q] == init[q];
    assert FirstOfId(m, refs, p);
  }

  /** The last record, when no earlier record has its id, is first of its id. */
  lemma LastKeptFirst(m: map<string, seq<Station>>, refs: seq<Ref>)
    requires AllValid(m, refs) && refs != [] && AllValid(m, refs[..|refs| - 1])
    requires Deref(m, refs[|refs| - 1]).id !in IdsOf(m, refs[..|refs| - 1])
    ensures KeptFirst(m, refs, refs[|refs| - 1])
  {
    var init := refs[..|refs| - 1];
    var p := |refs| - 1;
    forall q | 0 <= q < p
      ensures Deref(m, refs[q]).id != Deref(m, refs[p]).id
    {
      assert refs[q] == init[q] && init[q] in init;
    }
    assert FirstOfId(m, refs, p);
  }

  /** Every kept record is the first record of its id in the input. */
  lemma {:induction false} FirstByIdKeepsFirst(m: map<string, seq<Station>>, refs: seq<Ref>)
    requires AllValid(m, refs)
    ensures forall i :: 0 <= i < |FirstById(m, refs)| ==> KeptFirst(m, refs, FirstById(m, refs)[i])
  {
    if refs != [] {
      var init := refs[..|refs| - 1];
      var last := refs[|refs| - 1];
      assert forall r :: r in init ==> r in refs;
      FirstByIdKeepsFirst(m, init);
      var f := FirstById(m, init);
      var g := FirstById(m, refs);
      forall i | 0 <= i < |g|
        ensures KeptFirst(m, refs, g[i])
      {
        if i < |f| {
          assert g[i] == f[i];
          KeptFirstExtends(m, refs, f[i]);
        } else {
          assert g == f + [last] && g[i] == last;
          LastKeptFirst(m, refs);
        }
      }
    }
  }


  /** The region offsets, looked up by the lower-cased region code. */
  function RegionOffset(code: string): Option<int>
  {
    var c := Lower(code);
    if c == "ca" then Some(6000)
    else if c == "uk" then Some(7000)
    else if c == "fr" then Some(8000)
    else if c == "de" then Some(9000)
    else None
  }

  /** A number of an offset region is raised by the offset only while it is
      still below the offset. */
  function Offset(code: string, number: int): int
  {
    match RegionOffset(code)
    case None => number
    case Some(offset) => if number < offset then number + offset else number
  }

  /** Offsetting never lowers a number, and once a non-negative number has been
      offset, anything at or above the result is left alone by a second pass. */
  lemma OffsetSettles(code: string, number: int, later: int)
    requires number >= 0
    requires later >= Offset(code, number)
    ensures number <= Offset(code, number)
    ensures Offset(code, later) == later
  {
  }

  /** uk 50 becomes 7050, whatever the case of the code; a region without an
      offset keeps 50; an already offset 7050 stays. */
  lemma OffsetExamples()
    ensures Offset("uk", 50) == 7050
    ensures Offset("UK", 50) == 7050
    ensures Offset("local", 50) == 50
    ensures Offset("uk", 7050) == 7050
    ensures Offset("de", 9) == 9009
  {
    assert Lower("uk") == "uk";
    assert Lower("UK") == "uk";
    assert Lower("de") == "de";
    assert Lower("local") == "local";
  }

  /** The numbers the merge asks for: each first record's number after its
      region's offset. */
  function Requested(m: map<string, seq<Station>>, f: seq<Ref>): (ns: seq<int>)
    requires AllValid(m, f)
    ensures |ns| == |f|
  {
    seq(|f|, i requires 0 <= i < |f| => Offset(Deref(m, f[i]).countryCode, Deref(m, f[i]).number))
  }

  function SetNumber(m: map<string, seq<Station>>, r: Ref, n: int): (w: map<string, seq<Station>>)
    requires ValidRef(m, r)
    ensures w.Keys == m.Keys && forall c :: c in m ==> |w[c]| == |m[c]|
  {
    m[r.region := m[r.region][r.pos := m[r.region][r.pos].(number := n)]]
  }

  /** `elem['number'] = number` for each address in turn. */
  function WriteNumbers(m: map<string, seq<Station>>, refs: seq<Ref>, nums: seq<int>): (w: map<string, seq<Station>>)
    requires |refs| == |nums| && AllValid(m, refs)
    ensures w.Keys == m.Keys && forall c :: c in m ==> |w[c]| == |m[c]|
    decreases |refs|
  {
    if refs == [] then m
    else
      assert forall r :: r in refs[..|refs| - 1] ==> r in refs;
      assert refs[|refs| - 1] in refs;
      var w := WriteNumbers(m, refs[..|refs| - 1], nums[..|nums| - 1]);
      SetNumber(w, refs[|refs| - 1], nums[|nums| - 1])
  }

  /** After the writes, a written address holds its record with the number
      written last to it... and with distinct addresses, the one written to it;
      any other address is untouched. */
  lemma {:induction false} WriteNumbersAt(m: map<string, seq<Station>>, refs: seq<Ref>, nums: seq<int>, r: Ref)
    requires |refs| == |nums| && AllValid(m, refs) && ValidRef(m, r)
    requires forall p, q :: 0 <= p < q < |refs| ==> refs[p] != refs[q]
    ensures var w := WriteNumbers(m, refs, nums);
      ValidRef(w, r)
      && (r !in refs ==> Deref(w, r) == Deref(m, r))
      && (forall i :: 0 <= i < |refs| && refs[i] == r ==> Deref(w, r) == Deref(m, r).(number := nums[i]))
    decreases |refs|
  {
    if refs != [] {
      var init := refs[..|refs| - 1];
      assert refs == init + [refs[|refs| - 1]];
      WriteNumbersAt(m, init, nums[..|nums| - 1], r);
    }
  }

  /** What `channels_all` returns and the stored catalogs it leaves behind. */
  datatype Merged = Merged(channels: seq<Station>, stored: map<string, seq<Station>>)

  function MergeAll(order: seq<string>, m: map<string, seq<Station>>): Merged
    requires WellOrdered(order, m)
  {
    var f := FirstById(m, AllRefs(order, m));
    var nums := AssignNumbers(Requested(m, f));
    var w := WriteNumbers(m, f, nums);
    Merged(seq(|f|, i requires 0 <= i < |f| => Deref(w, f[i])), w)
  }

  /** Distinct channel ids give distinct addresses. */
  lemma FirstByIdRefsDistinct(m: map<string, seq<Station>>, refs: seq<Ref>)
    requires AllValid(m, refs)
    ensures var f := FirstById(m, refs);
      forall p, q :: 0 <= p < q < |f| ==> f[p] != f[q]
  {
  }

  /** The concatenation loop of `channels_all`, over addresses. */
  method Flatten(order: seq<string>, m: map<string, seq<Station>>) returns (all: seq<Ref>)
    requires forall c :: c in order ==> c in m
    ensures all == AllRefs(order, m)
  {
    all := [];
    for k := 0 to |order|
      invariant all == AllRefs(order[..k], m)
    {
      assert order[..k + 1][..k] == order[..k];
      all := all + RefsOf(order[k], |m[order[k]]|);
    }
    assert order[..|order|] == order;
  }

  /** The filter of `channels_all` with its `seen` set of ids. */
  /** One more address for the filter. */
  lemma FirstByIdSnoc(m: map<string, seq<Station>>, all: seq<Ref>, p: nat)
    requires AllValid(m, all) && p < |all|
    ensures AllValid(m, all[..p]) && AllValid(m, all[..p + 1]) && ValidRef(m, all[p])
    ensures FirstById(m, all[..p + 1]) ==
      if Deref(m, all[p]).id in IdsOf(m, FirstById(m, all[..p])) then FirstById(m, all[..p])
      else FirstById(m, all[..p]) + [all[p]]
  {
    assert all[p] in all;
    assert forall r :: r in all[..p + 1] ==> r in all;
    assert all[..p + 1][..p] == all[..p];
  }

  method KeepFirst(m: map<string, seq<Station>>, all: seq<Ref>) returns (filtered: seq<Ref>)
    requires AllValid(m, all)
    ensures filtered == FirstById(m, all)
  {
    var seen: set<string> := {};
    filtered := [];
    for p := 0 to |all|
      invariant AllValid(m, all[..p])
      invariant filtered == FirstById(m, all[..p])
      invariant seen == IdsOf(m, filtered)
    {
      FirstByIdSnoc(m, all, p);
      var id := Deref(m, all[p]).id;
      if id !in seen {
        IdsOfSnoc(m, filtered, all[p]);
        filtered := filtered + [all[p]];
        seen := seen + {id};
      }
    }
    assert all[..|all|] == all;
  }

  /** One step of the renumbering loop, on the stored records: the record at
      the next address is still the original one, and writing its number
      extends the writes. */
  lemma RenumberStep(m: map<string, seq<Station>>, filtered: seq<Ref>, nums: seq<int>, i: nat)
    requires AllValid(m, filtered) && |nums| == |filtered| && i < |filtered|
    requires forall p, q :: 0 <= p < q < |filtered| ==> filtered[p] != filtered[q]
    ensures AllValid(m, filtered[..i]) && AllValid(m, filtered[..i + 1])
    ensures ValidRef(WriteNumbers(m, filtered[..i], nums[..i]), filtered[i])
    ensures Deref(WriteNumbers(m, filtered[..i], nums[..i]), filtered[i]) == Deref(m, filtered[i])
    ensures WriteNumbers(m, filtered[..i + 1], nums[..i + 1]) == SetNumber(WriteNumbers(m, filtered[..i], nums[..i]), filtered[i], nums[i])
  {
    assert forall r :: r in filtered[..i] ==> r in filtered;
    assert forall r :: r in filtered[..i + 1] ==> r in filtered;
    assert filtered[..i + 1][..i] == filtered[..i] && nums[..i + 1][..i] == nums[..i];
    assert filtered[i] in filtered;
    assert filtered[i] !in filtered[..i];
    WriteNumbersAt(m, filtered[..i], nums[..i], filtered[i]);
  }

  /** One step of the renumbering loop, on the numbers: the next number is the
      least free one at or above the next requested number. */
  lemma RenumberNext(m: map<string, seq<Station>>, filtered: seq<Ref>, i: nat)
    requires AllValid(m, filtered) && i < |filtered|
    ensures var nums := AssignNumbers(Requested(m, filtered));
      && Offset(Deref(m, filtered[i]).countryCode, Deref(m, filtered[i]).number) == Requested(m, filtered)[i]
      && nums[i] == Bump(Requested(m, filtered)[i], Elems(nums[..i]))
      && Elems(nums[..i + 1]) == Elems(nums[..i]) + {nums[i]}
  {
    var nums := AssignNumbers(Requested(m, filtered));
    assert nums[..i + 1] == nums[..i] + [nums[i]];
    AssignNumbersAt(Requested(m, filtered), i);
  }

  /** Writing the number a record already has changes nothing. */
  lemma SetSameNumber(m: map<string, seq<Station>>, r: Ref)
    requires ValidRef(m, r)
    ensures SetNumber(m, r, Deref(m, r).number) == m
  {
    var s := m[r.region][r.pos := m[r.region][r.pos].(number := Deref(m, r).number)];
    assert s == m[r.region];
  }

  /** The renumbering loop of `channels_all`: offset, bump past the numbers
      already given out, and write the number into the stored record when it
      changed. */
  method Renumber(m: map<string, seq<Station>>, filtered: seq<Ref>) returns (stored: map<string, seq<Station>>)
    requires AllValid(m, filtered)
    requires forall p, q :: 0 <= p < q < |filtered| ==> filtered[p] != filtered[q]
    ensures stored == WriteNumbers(m, filtered, AssignNumbers(Requested(m, filtered)))
  {
    ghost var nums := AssignNumbers(Requested(m, filtered));
    var used: set<int> := {};
    stored := m;
    for i := 0 to |filtered|
      invariant stored == WriteNumbers(m, filtered[..i], nums[..i])
      invariant used == Elems(nums[..i])
    {
      var ref := filtered[i];
      RenumberStep(m, filtered, nums, i);
      RenumberNext(m, filtered, i);
      var elem: Station := stored[ref.region][ref.pos];
      var number := Offset(elem.countryCode, elem.number);
      number := BumpUntilFree(number, used);
      used := used + {number};
      if number != elem.number {
        stored := SetNumber(stored, ref, number);
      } else {
        SetSameNumber(stored, ref);
      }
    }
    assert filtered[..|filtered|] == filtered && nums[..|nums|] == nums;
  }

  /** `channels_all`: the merged list, and the stored catalogs carrying the new
      numbers. */
  method ChannelsAll(order: seq<string>, m: map<string, seq<Station>>) returns (r: Merged)
    requires WellOrdered(order, m)
    ensures r == MergeAll(order, m)
  {
    var all := Flatten(order, m);
    var filtered := KeepFirst(m, all);
    FirstByIdRefsDistinct(m, all);
    var stored := Renumber(m, filtered);
    r := Merged(seq(|filtered|, i requires 0 <= i < |filtered| => Deref(stored, filtered[i])), stored);
  }

  /** The merged record at position `i` is the kept record with its assigned
      number, and the stored catalogs hold exactly that record at its address. */
  lemma MergedAt(order: seq<string>, m: map<string, seq<Station>>, i: nat)
    requires WellOrdered(order, m)
    requires i < |MergeAll(order, m).channels|
    ensures var f := FirstById(m, AllRefs(order, m));
      && |MergeAll(order, m).channels| == |f|
      && MergeAll(order, m).channels[i] == Deref(m, f[i]).(number := AssignNumbers(Requested(m, f))[i])
  {
    var f := FirstById(m, AllRefs(order, m));
    FirstByIdRefsDistinct(m, AllRefs(order, m));
    assert f[i] in f;
    WriteNumbersAt(m, f, AssignNumbers(Requested(m, f)), f[i]);
  }

  /** The writes change numbers and nothing else, and keep every catalog's length. */
  lemma {:induction false} WriteNumbersOnlyNumbers(m: map<string, seq<Station>>, refs: seq<Ref>, nums: seq<int>, r: Ref)
    requires |refs| == |nums| && AllValid(m, refs) && ValidRef(m, r)
    ensures ValidRef(WriteNumbers(m, refs, nums), r)
    ensures Deref(WriteNumbers(m, refs, nums), r) == Deref(m, r).(number := Deref(WriteNumbers(m, refs, nums), r).number)
    decreases |refs|
  {
    if refs != [] {
      assert forall q :: q in refs[..|refs| - 1] ==> q in refs;
      WriteNumbersOnlyNumbers(m, refs[..|refs| - 1], nums[..|nums| - 1], r);
    }
  }

  /** `s` is the record stored at `all[p]`, the first record of its id, with
      a number no lower than that record's offset number. */
  predicate RenumberedFirst(m: map<string, seq<Station>>, all: seq<Ref>, p: nat, s: Station)
    requires AllValid(m, all) && p < |all|
  {
    && FirstOfId(m, all, p)
    && s == Deref(m, all[p]).(number := s.number)
    && s.number >= Offset(Deref(m, all[p]).countryCode, Deref(m, all[p]).number)
  }

  /** The merged records carry, in order, the ids of the first-by-id records. */
  lemma MergedIdsFollowFirst(order: seq<string>, m: map<string, seq<Station>>)
    requires WellOrdered(order, m)
    ensures |MergeAll(order, m).channels| == |FirstById(m, AllRefs(order, m))|
    ensures forall i :: 0 <= i < |MergeAll(order, m).channels| ==>
      MergeAll(order, m).channels[i].id == Deref(m, FirstById(m, AllRefs(order, m))[i]).id
  {
    forall i | 0 <= i < |MergeAll(order, m).channels|
      ensures MergeAll(order, m).channels[i].id == Deref(m, FirstById(m, AllRefs(order, m))[i]).id
    {
      MergedAt(order, m, i);
    }
  }

  /** Records carrying, index by index, the ids of `f` have the ids of `f`. */
  lemma SameIds(m: map<string, seq<Station>>, channels: seq<Station>, f: seq<Ref>)
    requires AllValid(m, f) && |channels| == |f|
    requires forall i :: 0 <= i < |f| ==> channels[i].id == Deref(m, f[i]).id
    ensures (set s | s in channels :: s.id) == IdsOf(m, f)
  {
    var ids := set s | s in channels :: s.id;
    forall id | id in ids ensures id in IdsOf(m, f) {
      var s :| s in channels && s.id == id;
      var i :| 0 <= i < |channels| && channels[i] == s;
      assert f[i] in f;
    }
    forall id | id in IdsOf(m, f) ensures id in ids {
      var q :| q in f && Deref(m, q).id == id;
      var i :| 0 <= i < |f| && f[i] == q;
      assert channels[i] in channels;
    }
  }

  /** The merge holds one record for each channel id found in any stored
      catalog, and no id twice. */
  lemma MergedIds(order: seq<string>, m: map<string, seq<Station>>)
    requires WellOrdered(order, m)
    ensures (set s | s in MergeAll(order, m).channels :: s.id) == IdsOf(m, AllRefs(order, m))
    ensures forall i, j :: 0 <= i < j < |MergeAll(order, m).channels| ==>
      MergeAll(order, m).channels[i].id != MergeAll(order, m).channels[j].id
  {
    var r := MergeAll(order, m);
    var f := FirstById(m, AllRefs(order, m));
    MergedIdsFollowFirst(order, m);
    SameIds(m, r.channels, f);
  }

  /** No two merged records share a number. */
  lemma MergedNumbersDistinct(order: seq<string>, m: map<string, seq<Station>>)
    requires WellOrdered(order, m)
    ensures forall i, j :: 0 <= i < j < |MergeAll(order, m).channels| ==>
      MergeAll(order, m).channels[i].number != MergeAll(order, m).channels[j].number
  {
    var r := MergeAll(order, m);
    var f := FirstById(m, AllRefs(order, m));
    AssignNumbersDistinct(Requested(m, f));
    forall i | 0 <= i < |r.channels|
      ensures r.channels[i].number == AssignNumbers(Requested(m, f))[i]
    {
      MergedAt(order, m, i);
    }
  }

  /** Each merged record is the first stored record of its id, changed at
      most in its number, which is at least its offset number. */
  lemma MergedFirstRecord(order: seq<string>, m: map<string, seq<Station>>, i: nat)
    requires WellOrdered(order, m)
    requires i < |MergeAll(order, m).channels|
    ensures exists p :: 0 <= p < |AllRefs(order, m)| && RenumberedFirst(m, AllRefs(order, m), p, MergeAll(order, m).channels[i])
  {
    var all := AllRefs(order, m);
    var f := FirstById(m, all);
    MergedAt(order, m, i);
    FirstByIdKeepsFirst(m, all);
    assert KeptFirst(m, all, f[i]);
    var p :| 0 <= p < |all| && all[p] == f[i] && FirstOfId(m, all, p);
    AssignNumbersLeastFree(Requested(m, f), i);
    assert RenumberedFirst(m, all, p, MergeAll(order, m).channels[i]);
  }

  /** The stored catalogs keep their regions and lengths and change only in
      numbers. */
  lemma MergedStoredShape(order: seq<string>, m: map<string, seq<Station>>)
    requires WellOrdered(order, m)
    ensures MergeAll(order, m).stored.Keys == m.Keys
    ensures forall c, j :: c in m && 0 <= j < |m[c]| ==>
      |MergeAll(order, m).stored[c]| == |m[c]|
      && MergeAll(order, m).stored[c][j] == m[c][j].(number := MergeAll(order, m).stored[c][j].number)
  {
    var f := FirstById(m, AllRefs(order, m));
    forall c, j | c in m && 0 <= j < |m[c]|
      ensures |MergeAll(order, m).stored[c]| == |m[c]|
      ensures MergeAll(order, m).stored[c][j] == m[c][j].(number := MergeAll(order, m).stored[c][j].number)
    {
      WriteNumbersOnlyNumbers(m, f, AssignNumbers(Requested(m, f)), Ref(c, j));
    }
  }

  /** Catalogs with the same regions and lengths have the same addresses. */
  lemma {:induction false} AllRefsSameShape(order: seq<string>, m: map<string, seq<Station>>, w: map<string, seq<Station>>)
    requires forall c :: c in order ==> c in m && c in w && |m[c]| == |w[c]|
    ensures AllRefs(order, m) == AllRefs(order, w)
  {
    if order != [] {
      AllRefsSameShape(order[..|order| - 1], m, w);
    }
  }

  /** The first-record filter looks only at ids. */
  lemma {:induction false} FirstByIdSameIds(m: map<string, seq<Station>>, w: map<string, seq<Station>>, refs: seq<Ref>)
    requires AllValid(m, refs) && AllValid(w, refs)
    requires forall r :: r in refs ==> Deref(m, r).id == Deref(w, r).id
    ensures FirstById(m, refs) == FirstById(w, refs)
    ensures IdsOf(m, FirstById(m, refs)) == IdsOf(w, FirstById(w, refs))
  {
    if refs != [] {
      var init := refs[..|refs| - 1];
      assert forall r :: r in init ==> r in refs;
      FirstByIdSameIds(m, w, init);
      assert refs[|refs| - 1] in refs;
      var f := FirstById(m, init);
      assert forall r :: r in f ==> r in refs;
    }
  }

  /** Writing to each address the number it already holds changes nothing. */
  lemma {:induction false} WriteNumbersUnchanged(w: map<string, seq<Station>>, refs: seq<Ref>, nums: seq<int>)
    requires |refs| == |nums| && AllValid(w, refs)
    requires forall p, q :: 0 <= p < q < |refs| ==> refs[p] != refs[q]
    requires forall i :: 0 <= i < |refs| ==> Deref(w, refs[i]).number == nums[i]
    ensures WriteNumbers(w, refs, nums) == w
    decreases |refs|
  {
    if refs != [] {
      var n := |refs| - 1;
      assert forall r :: r in refs[..n] ==> r in refs;
      WriteNumbersUnchanged(w, refs[..n], nums[..n]);
      assert refs[n] in refs;
      SetSameNumber(w, refs[n]);
    }
  }

  /** Merging a second time, over the catalogs the first merge left behind,
      gives the same list and leaves the catalogs as they are: the offsets are
      not applied twice and no number moves. Channel numbers are taken to be
      non-negative; a negative number pushed by an offset to below that offset
      would be offset again. */
  lemma MergeAllIdempotent(order: seq<string>, m: map<string, seq<Station>>)
    requires WellOrdered(order, m)
    requires forall c, j :: c in m && 0 <= j < |m[c]| ==> m[c][j].number >= 0
    ensures WellOrdered(order, MergeAll(order, m).stored)
    ensures MergeAll(order, MergeAll(order, m).stored) == MergeAll(order, m)
  {
    var f := FirstById(m, AllRefs(order, m));
    var nums := AssignNumbers(Requested(m, f));
    var w := MergeAll(order, m).stored;
    MergedSameFilter(order, m);
    FirstByIdRefsDistinct(m, AllRefs(order, m));
    forall r | r in f ensures Deref(m, r).number >= 0 {
      assert r in AllRefs(order, m);
    }
    WrittenSettled(m, f);
    AssignNumbersDistinct(Requested(m, f));
    AssignNumbersFixpoint(nums);
    assert Requested(w, f) == nums;
    assert AssignNumbers(Requested(w, f)) == nums;
    WriteNumbersUnchanged(w, f, nums);
    assert WriteNumbers(w, f, nums) == w;
  }

  /** The rewritten catalogs have the same addresses and the same ids, so the
      filter picks the same addresses again. */
  lemma MergedSameFilter(order: seq<string>, m: map<string, seq<Station>>)
    requires WellOrdered(order, m)
    ensures WellOrdered(order, MergeAll(order, m).stored)
    ensures AllRefs(order, MergeAll(order, m).stored) == AllRefs(order, m)
    ensures AllValid(MergeAll(order, m).stored, AllRefs(order, m))
    ensures FirstById(MergeAll(order, m).stored, AllRefs(order, m)) == FirstById(m, AllRefs(order, m))
  {
    var all := AllRefs(order, m);
    var w := MergeAll(order, m).stored;
    MergedStoredShape(order, m);
    AllRefsSameShape(order, m, w);
    forall r | r in all
      ensures Deref(m, r).id == Deref(w, r).id
    {
      assert Deref(w, r) == Deref(m, r).(number := Deref(w, r).number);
    }
    FirstByIdSameIds(m, w, all);
  }

  /** After the writes, each filtered address holds its assigned number, and
      for non-negative numbers the offsets ask for those numbers again. */
  lemma WrittenSettled(m: map<string, seq<Station>>, f: seq<Ref>)
    requires AllValid(m, f)
    requires forall p, q :: 0 <= p < q < |f| ==> f[p] != f[q]
    requires forall r :: r in f ==> Deref(m, r).number >= 0
    ensures AllValid(WriteNumbers(m, f, AssignNumbers(Requested(m, f))), f)
    ensures forall i :: 0 <= i < |f| ==>
      Deref(WriteNumbers(m, f, AssignNumbers(Requested(m, f))), f[i]).number == AssignNumbers(Requested(m, f))[i]
    ensures Requested(WriteNumbers(m, f, AssignNumbers(Requested(m, f))), f) == AssignNumbers(Requested(m, f))
  {
    var requested := Requested(m, f);
    var nums := AssignNumbers(requested);
    var w := WriteNumbers(m, f, nums);
    forall i | 0 <= i < |f|
      ensures ValidRef(w, f[i]) && Deref(w, f[i]).number == nums[i]
      ensures Offset(Deref(w, f[i]).countryCode, Deref(w, f[i]).number) == nums[i]
    {
      assert f[i] in f;
      WriteNumbersAt(m, f, nums, f[i]);
      AssignNumbersLeastFree(requested, i);
      OffsetSettles(Deref(m, f[i]).countryCode, Deref(m, f[i]).number, nums[i]);
    }
    assert Requested(w, f) == nums;
  }
}
