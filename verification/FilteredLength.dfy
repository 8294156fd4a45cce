/** How long a filtered view is, and why its selection must name each source once. */
module FilteredLength {
  import opened Options
  import opened Sorting
  import opened Paging
  import opened Filtering
  import opened SnapshotLines
  import opened SourceSelection
  import opened RoundRobin
  import opened FilteredView

  // ----- Lengths -----

  /** How many buffers of the selection a kept line lands in. */
  ghost function Copies(selected: seq<string>, kept: seq<Item>): nat
  {
    if kept == [] then 0
    else Copies(selected, kept[..|kept| - 1]) + multiset(selected)[kept[|kept| - 1].key]
  }

  lemma {:induction false} PerSourceStep(selected: seq<string>, kept: seq<Item>, item: Item)
    ensures Sum(Lengths(PerSource(selected, kept + [item])))
            == Sum(Lengths(PerSource(selected, kept))) + multiset(selected)[item.key]
    decreases |selected|
  {
    if selected != [] {
      var init, last := selected[..|selected| - 1], selected[|selected| - 1];
      assert selected == init + [last];
      PerSourceStep(init, kept, item);
      FilterStep(FromSource(last), kept, item);
      assert Lengths(PerSource(selected, kept))[..|init|] == Lengths(PerSource(init, kept));
      assert Lengths(PerSource(selected, kept + [item]))[..|init|] == Lengths(PerSource(init, kept + [item]));
    }
  }

  lemma {:induction false} SampleSize(selected: seq<string>, kept: seq<Item>)
    ensures Sum(Lengths(PerSource(selected, kept))) == Copies(selected, kept)
    decreases |kept|
  {
    if kept == [] {
      EmptySample(selected);
    } else {
      var init, last := kept[..|kept| - 1], kept[|kept| - 1];
      assert kept == init + [last];
      SampleSize(selected, init);
      PerSourceStep(selected, init, last);
    }
  }

  lemma {:induction false} EmptySample(selected: seq<string>)
    ensures Sum(Lengths(PerSource(selected, []))) == 0
  {
    if selected != [] {
      var init := selected[..|selected| - 1];
      EmptySample(init);
      assert Lengths(PerSource(selected, []))[..|init|] == Lengths(PerSource(init, []));
    }
  }

  /** How long a view is, in every mode and for every selection. */
  lemma ViewLength(mode: Mode, cap: nat, selected: seq<string>, kept: seq<Item>)
    ensures |View(mode, cap, selected, kept)| == Min(cap, if mode.Sample? then Copies(selected, kept) else |kept|)
  {
    KindsPartition(kept);
    SampleSize(selected, kept);
    FullOrderSize(Lengths(PerSource(selected, kept)));
  }

  // ----- Distinct source keys -----

  lemma {:induction false} DistinctMultiplicity(keys: seq<string>)
    requires NoDuplicates(keys)
    ensures forall k :: k in keys ==> multiset(keys)[k] == 1
  {
    if keys != [] {
      var init, last := keys[..|keys| - 1], keys[|keys| - 1];
      assert keys == init + [last];
      DistinctMultiplicity(init);
      assert last !in init;
    }
  }

  lemma {:induction false} DistinctCopies(keys: seq<string>, kept: seq<Item>)
    requires NoDuplicates(keys) && forall item :: item in kept ==> item.key in keys
    ensures Copies(keys, kept) == |kept|
    decreases |kept|
  {
    if kept != [] {
      DistinctMultiplicity(keys);
      DistinctCopies(keys, kept[..|kept| - 1]);
    }
  }

  lemma {:induction false} ItemKeys(sources: seq<Source>)
    ensures forall item :: item in Items(sources) ==> item.key in KeysOf(sources)
  {
    if sources != [] {
      var init, last := sources[..|sources| - 1], sources[|sources| - 1];
      ItemKeys(init);
      forall item | item in Items(sources) ensures item.key in KeysOf(sources) {
        if item in Items(init) {
          var i :| 0 <= i < |init| && KeysOf(init)[i] == item.key;
          assert KeysOf(sources)[i] == item.key;
        } else {
          assert KeysOf(sources)[|init|] == item.key;
        }
      }
    }
  }

  /** Every mode returns min(cap, kept) lines for every content. */
  ghost predicate AlwaysFullLength(keys: seq<string>)
  {
    forall sources: seq<Source>, cap: nat, mode: Mode :: KeysOf(sources) == keys ==>
      |View(mode, cap, keys, Kept(Items(sources)))| == Min(cap, |Kept(Items(sources))|)
  }

  /** One kept line in the source at position i, nothing elsewhere. */
  function SingleLine(keys: seq<string>, i: nat): seq<Source>
    requires i < |keys|
  {
    var line := Line(LineReference(keys[i], "", 1, "", false), true, None, false);
    seq(|keys|, j requires 0 <= j < |keys| => SelectedSource(keys[j], if j == i then [line] else []))
  }

  lemma {:induction false} SingleLineItems(sources: seq<Source>, i: nat, item: Item)
    requires i < |sources| && Tagged(sources[i]) == [item]
    requires forall j :: 0 <= j < |sources| && j != i ==> sources[j].lines == []
    ensures Items(sources) == [item]
  {
    var init, last := sources[..|sources| - 1], sources[|sources| - 1];
    if i == |sources| - 1 {
      NoItems(init);
    } else {
      SingleLineItems(init, i, item);
      assert Tagged(last) == [];
    }
  }

  lemma {:induction false} NoItems(sources: seq<Source>)
    requires forall j :: 0 <= j < |sources| ==> sources[j].lines == []
    ensures Items(sources) == []
  {
    if sources != [] {
      NoItems(sources[..|sources| - 1]);
      assert Tagged(sources[|sources| - 1]) == [];
    }
  }

  lemma RepeatedMultiplicity(keys: seq<string>, i: nat, j: nat)
    requires i < j < |keys| && keys[i] == keys[j]
    ensures 2 <= multiset(keys)[keys[i]]
  {
    assert keys == keys[..j] + keys[j..] && keys[i] in keys[..j] && keys[j] in keys[j..];
    assert multiset(keys) == multiset(keys[..j]) + multiset(keys[j..]);
  }

  lemma SingleCopies(keys: seq<string>, item: Item)
    ensures Copies(keys, [item]) == multiset(keys)[item.key]
    ensures item.line.keep ==> Kept([item]) == [item]
  {
    assert [item][..0] == [];
    FilterStep(IsKept, [], item);
    assert [] + [item] == [item];
  }

  lemma RepeatedKeyShowsTwice(keys: seq<string>, i: nat, j: nat) returns (sources: seq<Source>)
    requires i < j < |keys| && keys[i] == keys[j]
    ensures KeysOf(sources) == keys
    ensures |View(Sample, 2, keys, Kept(Items(sources)))| == 2 && |Kept(Items(sources))| == 1
  {
    hide View, Kept, Items, Copies;
    sources := SingleLine(keys, i);
    assert KeysOf(sources) == keys;
    var item := Item(keys[i], sources[i].lines[0]);
    SingleLineItems(sources, i, item);
    SingleCopies(keys, item);
    RepeatedMultiplicity(keys, i, j);
    ViewLength(Sample, 2, keys, [item]);
  }

  /** The length promise holds for every content exactly when no source key is selected twice. */
  lemma FullLengthExactlyForDistinctKeys(keys: seq<string>)
    ensures AlwaysFullLength(keys) <==> NoDuplicates(keys)
  {
    if NoDuplicates(keys) {
      forall sources: seq<Source>, cap: nat, mode: Mode | KeysOf(sources) == keys
        ensures |View(mode, cap, keys, Kept(Items(sources)))| == Min(cap, |Kept(Items(sources))|)
      {
        ViewLength(mode, cap, keys, Kept(Items(sources)));
        ItemKeys(sources);
        FilterKeeps(IsKept, Items(sources));
        DistinctCopies(keys, Kept(Items(sources)));
      }
    } else {
      var i: nat, j: nat :| i < j < |keys| && keys[i] == keys[j];
      var sources := RepeatedKeyShowsTwice(keys, i, j);
      assert Min(2, 1) == 1;
    }
  }

  lemma KeptConcat(s: seq<Item>, t: seq<Item>)
    ensures Kept(s + t) == Kept(s) + Kept(t)
  {
    FilterConcat(IsKept, s, t);
  }

  /** The kept lines of each source by itself. */
  function OwnKept(sources: seq<Source>): seq<seq<Item>>
  {
    seq(|sources|, i requires 0 <= i < |sources| => Kept(Tagged(sources[i])))
  }

  lemma KeysDiffer(sources: seq<Source>, i: nat, j: nat)
    requires i < |sources| && j < |sources| && NoDuplicates(KeysOf(sources))
    ensures sources[i].sourceKey == sources[j].sourceKey <==> i == j
  {
    assert KeysOf(sources)[i] == sources[i].sourceKey && KeysOf(sources)[j] == sources[j].sourceKey;
  }

  lemma NothingKept(sources: seq<Source>, key: string)
    ensures Filter(FromSource(key), Kept(Items(sources[..0]))) == []
  {
  }

  lemma KeptOfNext(sources: seq<Source>, n: nat, key: string)
    requires n < |sources|
    ensures Filter(FromSource(key), Kept(Items(sources[..n + 1])))
            == Filter(FromSource(key), Kept(Items(sources[..n])))
               + (if key == sources[n].sourceKey then Kept(Tagged(sources[n])) else [])
  {
    hide Kept, Items, Filter, FromSource, Tagged;
    ItemsStep(sources, n);
    KeptConcat(Items(sources[..n]), Tagged(sources[n]));
    FilterConcat(FromSource(key), Kept(Items(sources[..n])), Kept(Tagged(sources[n])));
    TaggedKeys(sources[n]);
    FromOneSource(sources[n], Tagged(sources[n]), key);
  }

  lemma {:induction false} OwnLines(sources: seq<Source>, n: nat, i: nat)
    requires n <= |sources| && i < |sources| && NoDuplicates(KeysOf(sources))
    ensures Filter(FromSource(sources[i].sourceKey), Kept(Items(sources[..n])))
            == if i < n then Kept(Tagged(sources[i])) else []
  {
    hide Kept, Items, Filter, FromSource, Tagged, NoDuplicates, KeysOf;
    if n == 0 {
      NothingKept(sources, sources[i].sourceKey);
    } else {
      OwnLines(sources, n - 1, i);
      KeysDiffer(sources, i, n - 1);
      KeptOfNext(sources, n - 1, sources[i].sourceKey);
    }
  }

  lemma TaggedKeys(source: Source)
    ensures forall item :: item in Tagged(source) ==> item.key == source.sourceKey
  {
  }

  lemma {:induction false} FromOneSource(source: Source, items: seq<Item>, key: string)
    requires forall item :: item in items ==> item.key == source.sourceKey
    ensures Filter(FromSource(key), Kept(items)) == if key == source.sourceKey then Kept(items) else []
    decreases |items|
  {
    if items != [] {
      var init, last := items[..|items| - 1], items[|items| - 1];
      FromOneSource(source, init, key);
      if last.line.keep {
        FilterStep(FromSource(key), Kept(init), last);
      }
    }
  }

  lemma BuffersAreOwnLines(sources: seq<Source>)
    requires NoDuplicates(KeysOf(sources))
    ensures PerSource(KeysOf(sources), Kept(Items(sources))) == OwnKept(sources)
  {
    hide Kept, Items, FromSource;
    var buffers := PerSource(KeysOf(sources), Kept(Items(sources)));
    assert sources[..|sources|] == sources;
    forall i | 0 <= i < |sources| ensures buffers[i] == OwnKept(sources)[i] {
      OwnLines(sources, |sources|, i);
    }
  }

  /** With distinct keys the sample is the first `cap` kept lines in the one order sorted by
      (index within source, position of source). */
  lemma SampleIsFirstInSortedOrder(sources: seq<Source>, cap: nat, order: seq<Coord>)
    requires NoDuplicates(KeysOf(sources))
    requires Increasing(order) && forall c :: c in order <==> InRange(Lengths(OwnKept(sources)), c)
    ensures Fits(OwnKept(sources), Take(order, cap))
    ensures View(Sample, cap, KeysOf(sources), Kept(Items(sources))) == Pick(OwnKept(sources), Take(order, cap))
  {
    hide Pick, Fits, FullOrder, OwnKept, PerSource, NoDuplicates;
    BuffersAreOwnLines(sources);
    FullOrderIsTheSortedOrder(Lengths(OwnKept(sources)), order);
    OrderFits(OwnKept(sources), cap);
  }
}
