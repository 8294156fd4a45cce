/** The order in which a round-robin sampler visits the lines of several sources. */
module RoundRobin {
  import opened Sorting
  import opened Paging

  /** The `round`-th line of the source at position `source`. */
  datatype Coord = Coord(round: nat, source: nat)

  function RowOrder(lens: seq<nat>, round: nat): seq<Coord>
  {
    if lens == [] then []
    else
      var n := |lens| - 1;
      if round < lens[n] then RowOrder(lens[..n], round) + [Coord(round, n)] else RowOrder(lens[..n], round)
  }

  function RoundOrder(lens: seq<nat>, rounds: nat): seq<Coord>
  {
    if rounds == 0 then [] else RoundOrder(lens, rounds - 1) + RowOrder(lens, rounds - 1)
  }

  function Longest(lens: seq<nat>): nat
  {
    if lens == [] then 0
    else
      var rest, last := Longest(lens[..|lens| - 1]), lens[|lens| - 1];
      if rest <= last then last else rest
  }

  /** All coordinates, round by round. */
  function FullOrder(lens: seq<nat>): seq<Coord>
  {
    RoundOrder(lens, Longest(lens))
  }

  predicate InRange(lens: seq<nat>, c: Coord)
  {
    c.source < |lens| && c.round < lens[c.source]
  }

  predicate Before(a: Coord, b: Coord)
  {
    a.round < b.round || (a.round == b.round && a.source < b.source)
  }

  ghost predicate Increasing(s: seq<Coord>)
  {
    forall i, j :: 0 <= i < j < |s| ==> Before(s[i], s[j])
  }

  lemma {:induction false} LongestBounds(lens: seq<nat>)
    ensures forall i :: 0 <= i < |lens| ==> lens[i] <= Longest(lens)
    ensures lens != [] ==> exists i :: 0 <= i < |lens| && lens[i] == Longest(lens)
  {
    if lens != [] {
      var init := lens[..|lens| - 1];
      LongestBounds(init);
      if lens[|lens| - 1] < Longest(init) {
        var i :| 0 <= i < |init| && init[i] == Longest(init);
        assert lens[i] == Longest(lens);
      }
    }
  }

  lemma IncreasingConcat(s: seq<Coord>, t: seq<Coord>)
    requires Increasing(s) && Increasing(t)
    requires forall a, b :: a in s && b in t ==> Before(a, b)
    ensures Increasing(s + t)
  {
    forall i, j | 0 <= i < j < |s + t| ensures Before((s + t)[i], (s + t)[j]) {
      if i < |s| <= j {
        assert s[i] in s && t[j - |s|] in t;
      }
    }
  }

  lemma NothingIncreases()
    ensures Increasing([])
  {
  }

  lemma {:induction false} RowIsOrdered(lens: seq<nat>, round: nat)
    ensures Increasing(RowOrder(lens, round))
    ensures forall c :: c in RowOrder(lens, round) <==> c.round == round && InRange(lens, c)
  {
    if lens != [] {
      var n := |lens| - 1;
      RowIsOrdered(lens[..n], round);
      if round < lens[n] {
        IncreasingConcat(RowOrder(lens[..n], round), [Coord(round, n)]);
      }
    }
  }

  lemma {:induction false} RoundsAreOrdered(lens: seq<nat>, rounds: nat)
    ensures Increasing(RoundOrder(lens, rounds))
    ensures forall c :: c in RoundOrder(lens, rounds) <==> c.round < rounds && InRange(lens, c)
  {
    hide RowOrder, Increasing;
    if rounds == 0 {
      NothingIncreases();
    } else {
      RoundsAreOrdered(lens, rounds - 1);
      RowIsOrdered(lens, rounds - 1);
      IncreasingConcat(RoundOrder(lens, rounds - 1), RowOrder(lens, rounds - 1));
    }
  }

  /** The sampler's order is the one arrangement of all lines by (index within source, position of source). */
  lemma FullOrderIsTheSortedOrder(lens: seq<nat>, order: seq<Coord>)
    ensures order == FullOrder(lens) <==>
              Increasing(order) && forall c :: c in order <==> InRange(lens, c)
  {
    LongestBounds(lens);
    RoundsAreOrdered(lens, Longest(lens));
    if Increasing(order) && forall c :: c in order <==> InRange(lens, c) {
      SameIncreasing(order, FullOrder(lens));
    }
  }

  lemma SameIncreasing(s: seq<Coord>, t: seq<Coord>)
    requires Increasing(s) && Increasing(t)
    requires forall c :: c in s <==> c in t
    ensures s == t
  {
    assert NoDuplicates(s) && NoDuplicates(t);
    SameElementsDistinct(s, t);
    var le := (a: Coord, b: Coord) => a == b || Before(a, b);
    SortedUnique(le, s, t);
  }

  // ----- Sizes -----

  function SumMin(lens: seq<nat>, rounds: nat): nat
  {
    if lens == [] then 0 else SumMin(lens[..|lens| - 1], rounds) + Min(lens[|lens| - 1], rounds)
  }

  lemma {:induction false} RowSize(lens: seq<nat>, round: nat)
    ensures |RowOrder(lens, round)| + SumMin(lens, round) == SumMin(lens, round + 1)
  {
    if lens != [] {
      RowSize(lens[..|lens| - 1], round);
    }
  }

  lemma {:induction false} RoundsSize(lens: seq<nat>, rounds: nat)
    ensures |RoundOrder(lens, rounds)| == SumMin(lens, rounds)
  {
    hide RowOrder, SumMin;
    if rounds == 0 {
      NoRounds(lens);
    } else {
      RoundsSize(lens, rounds - 1);
      RowSize(lens, rounds - 1);
    }
  }

  lemma {:induction false} NoRounds(lens: seq<nat>)
    ensures SumMin(lens, 0) == 0
  {
    if lens != [] {
      NoRounds(lens[..|lens| - 1]);
    }
  }

  function Sum(lens: seq<nat>): nat
  {
    if lens == [] then 0 else Sum(lens[..|lens| - 1]) + lens[|lens| - 1]
  }

  lemma {:induction false} SumMinSaturates(lens: seq<nat>, rounds: nat)
    requires forall i :: 0 <= i < |lens| ==> lens[i] <= rounds
    ensures SumMin(lens, rounds) == Sum(lens)
  {
    if lens != [] {
      SumMinSaturates(lens[..|lens| - 1], rounds);
    }
  }

  lemma FullOrderSize(lens: seq<nat>)
    ensures |FullOrder(lens)| == Sum(lens)
  {
    LongestBounds(lens);
    RoundsSize(lens, Longest(lens));
    SumMinSaturates(lens, Longest(lens));
  }

  lemma {:induction false} RowIsEmpty(lens: seq<nat>, round: nat)
    requires forall i :: 0 <= i < |lens| ==> lens[i] <= round
    ensures RowOrder(lens, round) == []
  {
    if lens != [] {
      RowIsEmpty(lens[..|lens| - 1], round);
    }
  }

  lemma {:induction false} RoundsExtend(lens: seq<nat>, m: nat, n: nat)
    requires m <= n
    ensures RoundOrder(lens, m) <= RoundOrder(lens, n)
    ensures Longest(lens) <= m ==> RoundOrder(lens, m) == RoundOrder(lens, n)
  {
    hide RowOrder;
    if m < n {
      RoundsExtend(lens, m, n - 1);
      assert RoundOrder(lens, n) == RoundOrder(lens, n - 1) + RowOrder(lens, n - 1);
      hide RoundOrder;
      if Longest(lens) <= m {
        LongestBounds(lens);
        RowIsEmpty(lens, n - 1);
      }
    }
  }

  // ----- Bounded buffers -----

  function Capped(lens: seq<nat>, cap: nat): seq<nat>
  {
    seq(|lens|, i requires 0 <= i < |lens| => Min(lens[i], cap))
  }

  lemma {:induction false} CappedRow(lens: seq<nat>, cap: nat, round: nat)
    requires round < cap
    ensures RowOrder(Capped(lens, cap), round) == RowOrder(lens, round)
  {
    if lens != [] {
      var init := lens[..|lens| - 1];
      assert Capped(lens, cap)[..|lens| - 1] == Capped(init, cap);
      CappedRow(init, cap, round);
    }
  }

  lemma {:induction false} CappedRounds(lens: seq<nat>, cap: nat, rounds: nat)
    requires rounds <= cap
    ensures RoundOrder(Capped(lens, cap), rounds) == RoundOrder(lens, rounds)
  {
    if rounds != 0 {
      CappedRounds(lens, cap, rounds - 1);
      CappedRow(lens, cap, rounds - 1);
    }
  }

  lemma {:induction false} EveryRoundAdds(lens: seq<nat>, rounds: nat)
    requires rounds <= Longest(lens)
    ensures rounds <= |RoundOrder(lens, rounds)|
  {
    if rounds != 0 {
      EveryRoundAdds(lens, rounds - 1);
      LongestBounds(lens);
      RowIsOrdered(lens, rounds - 1);
      var i :| 0 <= i < |lens| && lens[i] == Longest(lens);
      assert Coord(rounds - 1, i) in RowOrder(lens, rounds - 1);
    }
  }

  lemma LongCappedSample(lens: seq<nat>, cap: nat)
    requires cap < Longest(lens)
    ensures Take(FullOrder(Capped(lens, cap)), cap) == Take(RoundOrder(lens, cap), cap) == Take(FullOrder(lens), cap)
  {
    var capped := Capped(lens, cap);
    EveryRoundAdds(lens, cap);
    RoundsExtend(lens, cap, Longest(lens));
    LongestBounds(capped);
    CappedRounds(lens, cap, cap);
    RoundsExtend(capped, Longest(capped), cap);
  }

  /** Cutting every buffer at the limit does not change the first `cap` lines of the sample. */
  lemma CappedSampleIsExact(lens: seq<nat>, cap: nat)
    ensures Take(FullOrder(Capped(lens, cap)), cap) == Take(FullOrder(lens), cap)
    ensures forall c :: c in Take(FullOrder(lens), cap) ==> c.round < cap
  {
    hide Longest, RoundOrder;
    LongestBounds(lens);
    if Longest(lens) <= cap {
      assert Capped(lens, cap) == lens;
      RoundsAreOrdered(lens, Longest(lens));
    } else {
      LongCappedSample(lens, cap);
      RoundsAreOrdered(lens, cap);
      forall c | c in Take(RoundOrder(lens, cap), cap) ensures c.round < cap {
        assert c in RoundOrder(lens, cap);
      }
    }
  }
}
