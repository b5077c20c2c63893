/** Channel-number collision resolution: a number already taken is bumped by
    one until it is free. Both the per-region catalog and the multi-region
    merge assign numbers this way. */
module Numbering {

  /** `while number in used: number += 1` — the least number at or above `n`
      that is not in `used`. */
  function Bump(n: int, used: set<int>): (r: int)
    ensures n <= r && r !in used
    ensures forall k :: n <= k < r ==> k in used
    decreases |set k | k in used && k >= n|
  {
    if n in used then
      assert (set k | k in used && k >= n) == (set k | k in used && k >= n + 1) + {n};
      Bump(n + 1, used)
    else
      n
  }

  /** The loop itself: add one while the number is taken. */
  method BumpUntilFree(n: int, used: set<int>) returns (number: int)
    ensures number == Bump(n, used)
  {
    number := n;
    while number in used
      invariant n <= number
      invariant Bump(number, used) == Bump(n, used)
      decreases |set k | k in used && k >= number|
    {
      assert (set k | k in used && k >= number) == (set k | k in used && k >= number + 1) + {number};
      number := number + 1;
    }
  }

  function Elems(s: seq<int>): set<int>
  {
    set x | x in s
  }

  predicate Distinct(s: seq<int>)
  {
    forall i, j :: 0 <= i < j < |s| ==> s[i] != s[j]
  }

  /** Requested numbers taken in order, each bumped past every number assigned
      before it. */
  function AssignNumbers(ns: seq<int>): (r: seq<int>)
    ensures |r| == |ns|
  {
    if ns == [] then []
    else
      var prev := AssignNumbers(ns[..|ns| - 1]);
      prev + [Bump(ns[|ns| - 1], Elems(prev))]
  }

  /** Assigning a prefix gives the prefix of the assignment: later requests
      never move earlier numbers. */
  lemma {:induction false} AssignNumbersPrefix(ns: seq<int>, i: nat)
    requires i <= |ns|
    ensures AssignNumbers(ns)[..i] == AssignNumbers(ns[..i])
    decreases |ns|
  {
    if i < |ns| {
      assert ns[..|ns| - 1][..i] == ns[..i];
      AssignNumbersPrefix(ns[..|ns| - 1], i);
    } else {
      assert ns[..i] == ns;
    }
  }

  /** The i-th assigned number is the i-th request bumped past the numbers
      assigned before it. */
  lemma AssignNumbersAt(ns: seq<int>, i: nat)
    requires i < |ns|
    ensures AssignNumbers(ns)[i] == Bump(ns[i], Elems(AssignNumbers(ns)[..i]))
  {
    var r := AssignNumbers(ns);
    var head := ns[..i + 1];
    AssignNumbersPrefix(ns, i + 1);
    AssignNumbersPrefix(ns, i);
    assert head[..i] == ns[..i];
    assert r[..i + 1] == AssignNumbers(head);
    assert r[i] == r[..i + 1][i];
  }

  /** The i-th assigned number is the least number at or above the i-th
      requested one that no earlier assignment took. */
  lemma AssignNumbersLeastFree(ns: seq<int>, i: nat)
    requires i < |ns|
    ensures ns[i] <= AssignNumbers(ns)[i]
    ensures forall k :: 0 <= k < i ==> AssignNumbers(ns)[k] != AssignNumbers(ns)[i]
    ensures forall v :: ns[i] <= v < AssignNumbers(ns)[i] ==> v in AssignNumbers(ns)[..i]
  {
    var r := AssignNumbers(ns);
    AssignNumbersAt(ns, i);
    var used := Elems(r[..i]);
    assert r[i] !in used;
    forall k | 0 <= k < i
      ensures r[k] != r[i]
    {
      assert r[k] == r[..i][k];
      assert r[k] in used;
    }
    forall v | ns[i] <= v < r[i]
      ensures v in r[..i]
    {
      assert v in used;
    }
  }

  /** No two assigned numbers are equal. */
  lemma AssignNumbersDistinct(ns: seq<int>)
    ensures Distinct(AssignNumbers(ns))
  {
    var r := AssignNumbers(ns);
    forall i, j | 0 <= i < j < |r|
      ensures r[i] != r[j]
    {
      AssignNumbersLeastFree(ns, j);
    }
  }

  /** Requests that are already pairwise distinct are granted unchanged. */
  lemma {:induction false} AssignNumbersFixpoint(ns: seq<int>)
    requires Distinct(ns)
    ensures AssignNumbers(ns) == ns
    decreases |ns|
  {
    if ns != [] {
      var init := ns[..|ns| - 1];
      AssignNumbersFixpoint(init);
      assert ns[|ns| - 1] !in Elems(init);
      assert ns == init + [ns[|ns| - 1]];
    }
  }

  /** Numbers [5, 5, 7] become [5, 6, 7]; [5, 5, 6] become [5, 6, 7]; two
      requests for 7050 become 7050 and 7051. */
  lemma AssignNumbersExamples()
    ensures AssignNumbers([5, 5, 7]) == [5, 6, 7]
    ensures AssignNumbers([5, 5, 6]) == [5, 6, 7]
    ensures AssignNumbers([7050, 7050]) == [7050, 7051]
  {
    assert Elems([]) == {};
    assert AssignNumbers([5]) == [5] by {
      assert [5][..0] == [];
    }
    assert Elems([5]) == {5};
    assert AssignNumbers([5, 5]) == [5, 6] by {
      assert [5, 5][..1] == [5];
      assert Bump(5, {5}) == 6;
    }
    assert Elems([5, 6]) == {5, 6};
    assert AssignNumbers([5, 5, 7]) == [5, 6, 7] by {
      assert [5, 5, 7][..2] == [5, 5];
    }
    assert AssignNumbers([5, 5, 6]) == [5, 6, 7] by {
      assert [5, 5, 6][..2] == [5, 5];
      assert Bump(6, {5, 6}) == 7;
    }
    assert AssignNumbers([7050]) == [7050] by {
      assert [7050][..0] == [];
    }
    assert Elems([7050]) == {7050};
    assert AssignNumbers([7050, 7050]) == [7050, 7051] by {
      assert [7050, 7050][..1] == [7050];
      assert Bump(7050, {7050}) == 7051;
    }
  }
}
