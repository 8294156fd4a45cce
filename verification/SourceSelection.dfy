/** Choosing the collected sources of a snapshot that a request names: once for analysis, once for views. */
module SourceSelection {
  import opened Options
  import opened Sorting
  import opened Filtering

  /** One stored source row; only a collected one with a file can be read. */
  datatype StoredSource<L> = StoredSource(sourceKey: string, collected: bool, file: Option<L>)

  datatype SelectedSource<L> = SelectedSource(sourceKey: string, lines: L)

  datatype Selection<L> = Selected(sources: seq<SelectedSource<L>>) | UnknownSourceKeys(keys: seq<string>)

  function Available<L>(stored: seq<StoredSource<L>>): seq<SelectedSource<L>>
  {
    if stored == [] then []
    else
      var init, last := Available(stored[..|stored| - 1]), stored[|stored| - 1];
      if last.collected && last.file.Some? then init + [SelectedSource(last.sourceKey, last.file.value)] else init
  }

  /** The available sources are exactly the collected ones with a file, in stored order. */
  lemma {:induction false} AvailableInOrder<L>(stored: seq<StoredSource<L>>, i: nat)
    requires i < |stored|
    ensures Available(stored[..i])
            + (if stored[i].collected && stored[i].file.Some?
               then [SelectedSource(stored[i].sourceKey, stored[i].file.value)] else [])
            <= Available(stored)
    ensures Available<L>([]) == []
    decreases |stored|
  {
    var n := |stored| - 1;
    if i < n {
      AvailableInOrder(stored[..n], i);
      assert stored[..n][..i] == stored[..i];
    } else {
      AvailableStep(stored, n);
      assert stored[..n + 1] == stored;
    }
  }

  lemma {:induction false} AvailableIs<L>(stored: seq<StoredSource<L>>)
    ensures forall s :: s in Available(stored)
              <==> exists i :: 0 <= i < |stored| && stored[i].collected && stored[i].file == Some(s.lines)
                               && stored[i].sourceKey == s.sourceKey
  {
    if stored != [] {
      var n := |stored| - 1;
      AvailableIs(stored[..n]);
      AvailableStep(stored, n);
      assert stored[..n + 1] == stored && forall i :: 0 <= i < n ==> stored[..n][i] == stored[i];
      hide Available;
    }
  }

  lemma AvailableStep<L>(stored: seq<StoredSource<L>>, n: nat)
    requires n < |stored|
    ensures Available(stored[..n + 1])
         == Available(stored[..n])
            + (if stored[n].collected && stored[n].file.Some?
               then [SelectedSource(stored[n].sourceKey, stored[n].file.value)] else [])
  {
    assert stored[..n + 1][..n] == stored[..n];
  }

  /** For analysis no request, or an empty one, means every available source. */
  function IsWanted<L>(requested: Option<seq<string>>): SelectedSource<L> -> bool
  {
    (s: SelectedSource<L>) => requested.None? || requested.value == [] || s.sourceKey in requested.value
  }

  function Chosen<L>(stored: seq<StoredSource<L>>, requested: Option<seq<string>>): seq<SelectedSource<L>>
  {
    Filter(IsWanted<L>(requested), Available(stored))
  }

  /** For a filtered view only no request means every available source; an empty one names none. */
  function IsNamed<L>(requested: Option<seq<string>>): SelectedSource<L> -> bool
  {
    (s: SelectedSource<L>) => requested.None? || s.sourceKey in requested.value
  }

  function Picked<L>(stored: seq<StoredSource<L>>, requested: Option<seq<string>>): seq<SelectedSource<L>>
  {
    Filter(IsNamed<L>(requested), Available(stored))
  }

  function KeysOf<L>(sources: seq<SelectedSource<L>>): seq<string>
  {
    seq(|sources|, i requires 0 <= i < |sources| => sources[i].sourceKey)
  }

  /** The requested keys that no available source has. */
  function Unknown<L>(stored: seq<StoredSource<L>>, requested: Option<seq<string>>): set<string>
  {
    if requested.None? then {} else set k | k in requested.value && k !in KeysOf(Available(stored))
  }

  /** The keys of a set in Python's `sorted` order. */
  ghost predicate IsSortedSet(keys: set<string>, listed: seq<string>)
  {
    SortedBy(StringLeq, listed) && NoDuplicates(listed) && forall k :: k in listed <==> k in keys
  }

  method SelectSnapshotFiles<L>(stored: seq<StoredSource<L>>, requested: Option<seq<string>>)
    returns (r: Selection<L>)
    ensures r.UnknownSourceKeys? <==> Unknown(stored, requested) != {}
    ensures r.UnknownSourceKeys? ==> IsSortedSet(Unknown(stored, requested), r.keys)
    ensures r.Selected? ==> r.sources == Chosen(stored, requested)
  {
    var available := Available(stored);
    if requested.None? || requested.value == [] {
      EverythingIsWanted(requested, available);
      return Selected(available);
    }
    var unknown := Unknown(stored, requested);
    if unknown != {} {
      var keys := SortedKeys(unknown);
      return UnknownSourceKeys(keys);
    }
    r := Selected(Filter(IsWanted<L>(requested), available));
  }

  lemma {:induction false} EverythingIsWanted<L>(requested: Option<seq<string>>, sources: seq<SelectedSource<L>>)
    requires requested.None? || requested.value == []
    ensures Filter(IsWanted<L>(requested), sources) == sources
  {
    if sources != [] {
      EverythingIsWanted(requested, sources[..|sources| - 1]);
    }
  }

  /** An accepted request selects the available sources it names, all of them, and finds each key. */
  lemma SelectionAnswersRequest<L>(stored: seq<StoredSource<L>>, requested: seq<string>)
    requires requested != [] && Unknown(stored, Some(requested)) == {}
    ensures forall s :: s in Chosen(stored, Some(requested)) <==> s in Available(stored) && s.sourceKey in requested
    ensures forall k :: k in requested <==> k in KeysOf(Chosen(stored, Some(requested)))
  {
    var chosen, available := Chosen(stored, Some(requested)), Available(stored);
    var wanted := IsWanted<L>(Some(requested));
    assert chosen == Filter(wanted, available);
    FilterKeeps(wanted, available);
    assert forall s :: s in chosen <==> s in available && wanted(s);
    forall k ensures k in requested <==> k in KeysOf(chosen) {
      if k in requested {
        assert k !in Unknown(stored, Some(requested));
        var i :| 0 <= i < |available| && KeysOf(available)[i] == k;
        assert available[i] in available && wanted(available[i]);
        assert available[i] in chosen;
        var j :| 0 <= j < |chosen| && chosen[j] == available[i];
        assert KeysOf(chosen)[j] == k;
      }
      if k in KeysOf(chosen) {
        var j :| 0 <= j < |chosen| && KeysOf(chosen)[j] == k;
        assert chosen[j] in chosen;
      }
    }
  }

  method SelectViewFiles<L>(stored: seq<StoredSource<L>>, requested: Option<seq<string>>)
    returns (r: Selection<L>)
    ensures r.UnknownSourceKeys? <==> Unknown(stored, requested) != {}
    ensures r.UnknownSourceKeys? ==> IsSortedSet(Unknown(stored, requested), r.keys)
    ensures r.Selected? ==> r.sources == Picked(stored, requested)
  {
    var available := Available(stored);
    if requested.Some? && requested.value != [] {
      var unknown := Unknown(stored, requested);
      if unknown != {} {
        var keys := SortedKeys(unknown);
        return UnknownSourceKeys(keys);
      }
    }
    r := Selected(Filter(IsNamed<L>(requested), available));
  }

  lemma {:induction false} EmptyRequestNamesNothing<L>(sources: seq<SelectedSource<L>>)
    ensures Filter(IsNamed<L>(Some([])), sources) == []
  {
    if sources != [] {
      EmptyRequestNamesNothing(sources[..|sources| - 1]);
    }
  }

  lemma {:induction false} WantedIsNamed<L>(requested: Option<seq<string>>, sources: seq<SelectedSource<L>>)
    requires requested != Some([])
    ensures Filter(IsWanted<L>(requested), sources) == Filter(IsNamed<L>(requested), sources)
  {
    if sources != [] {
      WantedIsNamed(requested, sources[..|sources| - 1]);
    }
  }

  /** The two selections agree exactly unless the request is empty and there is something to select. */
  lemma SelectionsAgree<L>(stored: seq<StoredSource<L>>, requested: Option<seq<string>>)
    ensures Chosen(stored, requested) == Picked(stored, requested)
       <==> requested != Some([]) || Available(stored) == []
  {
    if requested == Some([]) {
      EverythingIsWanted(requested, Available(stored));
      EmptyRequestNamesNothing(Available(stored));
    } else {
      WantedIsNamed(requested, Available(stored));
    }
  }

  /** Where stored keys are distinct, so are the selected ones of a view, whatever is requested. */
  lemma SelectionKeepsDistinct<L>(stored: seq<StoredSource<L>>, requested: Option<seq<string>>)
    requires NoDuplicates(KeysOf(Available(stored)))
    ensures NoDuplicates(KeysOf(Picked(stored, requested)))
  {
    FilterKeepsDistinct(IsNamed<L>(requested), Available(stored));
  }

  lemma {:induction false} FilterKeepsDistinct<L>(keep: SelectedSource<L> -> bool, sources: seq<SelectedSource<L>>)
    requires NoDuplicates(KeysOf(sources))
    ensures NoDuplicates(KeysOf(Filter(keep, sources)))
    ensures forall k :: k in KeysOf(Filter(keep, sources)) ==> k in KeysOf(sources)
  {
    if sources != [] {
      var init, last := sources[..|sources| - 1], sources[|sources| - 1];
      var keys := KeysOf(sources);
      assert keys == KeysOf(init) + [last.sourceKey];
      assert forall i :: 0 <= i < |init| ==> KeysOf(init)[i] == keys[i];
      assert last.sourceKey !in KeysOf(init) by {
        assert keys[|init|] == last.sourceKey;
      }
      FilterKeepsDistinct(keep, init);
      if keep(last) {
        assert KeysOf(Filter(keep, sources)) == KeysOf(Filter(keep, init)) + [last.sourceKey];
      }
    }
  }
}
