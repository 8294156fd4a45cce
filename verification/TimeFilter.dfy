/** Bytes, lines and the line counts that collection reports. */
module LineCounting {
  type byte = b: int | 0 <= b < 256

  const NEWLINE: byte := 10

  function Newlines(s: seq<byte>): nat
  {
    if s == [] then 0 else Newlines(s[..|s| - 1]) + if s[|s| - 1] == NEWLINE then 1 else 0
  }

  /** Newline-terminated lines, plus one for an unterminated tail. */
  function LineCount(s: seq<byte>): nat
  {
    if s == [] then 0 else if s[|s| - 1] == NEWLINE then Newlines(s) else Newlines(s) + 1
  }

  lemma {:induction false} NewlinesConcat(s: seq<byte>, t: seq<byte>)
    ensures Newlines(s + t) == Newlines(s) + Newlines(t)
    decreases |t|
  {
    if t == [] {
      assert s + t == s;
    } else {
      NewlinesConcat(s, t[..|t| - 1]);
      assert (s + t)[..|s + t| - 1] == s + t[..|t| - 1];
    }
  }

  /** The running counters every copy loop keeps over the pieces it writes. */
  datatype Counters = Counters(byteCount: nat, newlineCount: nat, trailing: seq<byte>)
  {
    function Add(piece: seq<byte>): Counters
    {
      Counters(byteCount + |piece|, newlineCount + Newlines(piece),
               if piece == [] then trailing else [piece[|piece| - 1]])
    }

    function Lines(): nat
    {
      if byteCount == 0 then 0 else if trailing == [NEWLINE] then newlineCount else newlineCount + 1
    }

    /** The counters describe exactly these bytes. */
    predicate Describe(written: seq<byte>)
    {
      && byteCount == |written|
      && newlineCount == Newlines(written)
      && trailing == if written == [] then [] else [written[|written| - 1]]
    }
  }

  const NO_BYTES := Counters(0, 0, [])

  lemma AddDescribes(c: Counters, written: seq<byte>, piece: seq<byte>)
    requires c.Describe(written)
    ensures c.Add(piece).Describe(written + piece)
  {
    NewlinesConcat(written, piece);
    assert piece == [] ==> written + piece == written;
  }

  lemma CountersCountLines(c: Counters, written: seq<byte>)
    requires c.Describe(written)
    ensures c.byteCount == |written| && c.Lines() == LineCount(written)
  {
  }

  function Flatten(pieces: seq<seq<byte>>): seq<byte>
  {
    if pieces == [] then [] else Flatten(pieces[..|pieces| - 1]) + pieces[|pieces| - 1]
  }

  lemma FlattenStep(pieces: seq<seq<byte>>, piece: seq<byte>)
    ensures Flatten(pieces + [piece]) == Flatten(pieces) + piece
  {
    assert (pieces + [piece])[..|pieces|] == pieces;
  }

  predicate Terminated(line: seq<byte>)
  {
    line != [] && line[|line| - 1] == NEWLINE
  }

  /** A non-empty piece with a newline at most at its end. */
  ghost predicate IsLine(line: seq<byte>)
  {
    line != [] && forall j :: 0 <= j < |line| - 1 ==> line[j] != NEWLINE
  }

  /** The lines of one file: only the last may lack its newline. */
  ghost predicate IsLineList(lines: seq<seq<byte>>)
  {
    && (forall i :: 0 <= i < |lines| ==> IsLine(lines[i]))
    && (forall i :: 0 <= i < |lines| - 1 ==> Terminated(lines[i]))
  }

  predicate EndsOpen(lines: seq<seq<byte>>)
  {
    lines != [] && !Terminated(lines[|lines| - 1])
  }

  /** A file read line by line, as a binary file handle yields it. */
  function Lines(s: seq<byte>): seq<seq<byte>>
  {
    if s == [] then [] else WithByte(Lines(s[..|s| - 1]), s[|s| - 1])
  }

  function WithByte(lines: seq<seq<byte>>, b: byte): seq<seq<byte>>
  {
    if EndsOpen(lines) then lines[..|lines| - 1] + [lines[|lines| - 1] + [b]]
    else lines + [[b]]
  }

  lemma WithByteFlattens(lines: seq<seq<byte>>, b: byte)
    ensures Flatten(WithByte(lines, b)) == Flatten(lines) + [b]
  {
    if EndsOpen(lines) {
      var shorter, tail := lines[..|lines| - 1], lines[|lines| - 1];
      FlattenStep(shorter, tail + [b]);
      assert Flatten(shorter) + (tail + [b]) == Flatten(shorter) + tail + [b];
    } else {
      FlattenStep(lines, [b]);
    }
  }

  lemma WithByteKeepsList(lines: seq<seq<byte>>, b: byte)
    requires IsLineList(lines)
    ensures IsLineList(WithByte(lines, b))
    ensures EndsOpen(WithByte(lines, b)) <==> b != NEWLINE
  {
  }

  lemma LinesStep(s: seq<byte>, b: byte)
    ensures Lines(s + [b]) == WithByte(Lines(s), b)
  {
    assert (s + [b])[..|s|] == s;
  }

  lemma NoLines()
    ensures Lines([]) == [] && IsLineList([]) && Flatten([]) == [] && !EndsOpen([])
  {
  }

  lemma {:induction false} LinesAreALineList(s: seq<byte>)
    ensures IsLineList(Lines(s)) && Flatten(Lines(s)) == s
    ensures EndsOpen(Lines(s)) <==> s != [] && s[|s| - 1] != NEWLINE
  {
    hide IsLineList, WithByte, Flatten, EndsOpen, Lines;
    if s == [] {
      NoLines();
    } else {
      var init, last := s[..|s| - 1], s[|s| - 1];
      LinesAreALineList(init);
      WithByteKeepsList(Lines(init), last);
      WithByteFlattens(Lines(init), last);
      LinesStep(init, last);
      assert init + [last] == s;
    }
  }

  /** Dropping the last byte of a line list undoes adding it. */
  lemma WithoutByte(lines: seq<seq<byte>>) returns (shorter: seq<seq<byte>>, b: byte)
    requires IsLineList(lines) && lines != []
    ensures IsLineList(shorter) && WithByte(shorter, b) == lines
  {
    var init, last := lines[..|lines| - 1], lines[|lines| - 1];
    var cut := last[..|last| - 1];
    b := last[|last| - 1];
    assert cut + [b] == last;
    if cut == [] {
      shorter := init;
      assert last == [b];
    } else {
      shorter := init + [cut];
      assert !Terminated(cut);
    }
  }

  /** Reading back what a line list wrote yields the same lines. */
  lemma {:induction false} LinesOfFlatten(lines: seq<seq<byte>>)
    requires IsLineList(lines)
    ensures Lines(Flatten(lines)) == lines
    decreases |Flatten(lines)|
  {
    if lines != [] {
      var shorter, b := WithoutByte(lines);
      WithByteFlattens(shorter, b);
      LinesOfFlatten(shorter);
      assert Flatten(lines)[..|Flatten(lines)| - 1] == Flatten(shorter);
    }
  }

  lemma {:induction false} LineCountIsLines(s: seq<byte>)
    ensures LineCount(s) == |Lines(s)|
  {
    if s != [] {
      var init := s[..|s| - 1];
      LineCountIsLines(init);
      LinesAreALineList(init);
      assert Newlines(s) == Newlines(init) + if s[|s| - 1] == NEWLINE then 1 else 0;
      assert LineCount(s) == Newlines(init) + 1;
      assert |Lines(s)| == |Lines(init)| + if EndsOpen(Lines(init)) then 0 else 1;
      assert init == [] ==> Newlines(init) == 0 == LineCount(init);
    }
  }
}

/** Copying one file source, with and without its since/until window. */
module TimeFilter {
  import opened Options
  import opened LineCounting

  const COPY_CHUNK_BYTES := 8192

  /** Timestamps and bounds as points on one time line. */
  datatype Window = Window(since: Option<int>, until: Option<int>)

  datatype TimeFilters = TimeFilters(window: Window, fileFiltersEnabled: bool)

  /** The parsed timestamp of a line, if it has one. */
  type Stamp = seq<byte> -> Option<int>

  predicate InWindow(t: int, w: Window)
  {
    (w.since.Some? ==> w.since.value <= t) && (w.until.Some? ==> t <= w.until.value)
  }

  predicate IsOpen(w: Window)
  {
    w.since.None? && w.until.None?
  }

  /** The timestamp a line belongs to: its own, or that of its latest stamped predecessor. */
  function Governing(lines: seq<seq<byte>>, stamp: Stamp): Option<int>
  {
    if lines == [] then None
    else
      var own := stamp(lines[|lines| - 1]);
      if own.Some? then own else Governing(lines[..|lines| - 1], stamp)
  }

  predicate Admits(w: Window, governing: Option<int>)
  {
    match governing case None => IsOpen(w) case Some(t) => InWindow(t, w)
  }

  /** The lines whose governing timestamp lies in the window. */
  function KeptLines(lines: seq<seq<byte>>, stamp: Stamp, w: Window): seq<seq<byte>>
  {
    if lines == [] then []
    else
      var init := lines[..|lines| - 1];
      if Admits(w, Governing(lines, stamp)) then KeptLines(init, stamp, w) + [lines[|lines| - 1]]
      else KeptLines(init, stamp, w)
  }

  lemma {:induction false} KeptLinesAreALineList(lines: seq<seq<byte>>, stamp: Stamp, w: Window)
    requires IsLineList(lines)
    ensures IsLineList(KeptLines(lines, stamp, w))
    ensures lines != [] && Terminated(lines[|lines| - 1]) ==>
              forall l :: l in KeptLines(lines, stamp, w) ==> Terminated(l)
  {
    if lines != [] {
      var init := lines[..|lines| - 1];
      KeptLinesAreALineList(init, stamp, w);
      var kept := KeptLines(init, stamp, w);
      forall i | 0 <= i < |kept| ensures Terminated(kept[i]) {
        assert init != [] && Terminated(init[|init| - 1]);
        assert kept[i] in kept;
      }
    }
  }

  method CopyFileToOutput(content: seq<byte>) returns (output: seq<byte>, byteCount: nat, lineCount: nat)
    ensures output == content
    ensures byteCount == |output| && lineCount == LineCount(output)
  {
    var counters := NO_BYTES;
    output := [];
    var position := 0;
    while position < |content|
      invariant position <= |content| && output == content[..position]
      invariant counters.Describe(output)
    {
      var end := if position + COPY_CHUNK_BYTES < |content| then position + COPY_CHUNK_BYTES else |content|;
      var chunk := content[position..end];
      AddDescribes(counters, output, chunk);
      output := output + chunk;
      counters := counters.Add(chunk);
      position := end;
    }
    CountersCountLines(counters, output);
    byteCount, lineCount := counters.byteCount, counters.Lines();
  }

  /** The filter holds one bit of state; its output is the record-level specification. */
  method WriteFileToOutput(content: seq<byte>, stamp: Stamp, filters: TimeFilters)
    returns (output: seq<byte>, byteCount: nat, lineCount: nat)
    ensures !filters.fileFiltersEnabled ==> output == content
    ensures filters.fileFiltersEnabled ==> output == Flatten(KeptLines(Lines(content), stamp, filters.window))
    ensures filters.fileFiltersEnabled ==> lineCount == |KeptLines(Lines(content), stamp, filters.window)|
    ensures byteCount == |output| && lineCount == LineCount(output)
  {
    if !filters.fileFiltersEnabled {
      output, byteCount, lineCount := CopyFileToOutput(content);
      return;
    }
    var w, lines := filters.window, Lines(content);
    var counters := NO_BYTES;
    output := [];
    var previousTimestampIncluded := w.since.None? && w.until.None?;
    assert KeptLines(lines[..0], stamp, w) == [] && Governing(lines[..0], stamp) == None;
    hide Lines, KeptLines, Governing, Flatten;
    NothingFlattened();
    for i := 0 to |lines|
      invariant previousTimestampIncluded == Admits(w, Governing(lines[..i], stamp))
      invariant output == Flatten(KeptLines(lines[..i], stamp, w))
      invariant counters.Describe(output)
    {
      var line := lines[i];
      FilterLine(lines, i, stamp, w);
      var timestamp := stamp(line);
      if timestamp.None? {
        if !previousTimestampIncluded { continue; }
      } else {
        previousTimestampIncluded := InWindow(timestamp.value, w);
        if !previousTimestampIncluded { continue; }
      }
      FlattenStep(KeptLines(lines[..i], stamp, w), line);
      AddDescribes(counters, output, line);
      output := output + line;
      counters := counters.Add(line);
    }
    assert lines[..|lines|] == lines;
    CountersCountLines(counters, output);
    byteCount, lineCount := counters.byteCount, counters.Lines();
    LinesAreALineList(content);
    KeptLinesAreALineList(lines, stamp, w);
    LinesOfFlatten(KeptLines(lines, stamp, w));
    LineCountIsLines(output);
  }

  lemma NothingFlattened()
    ensures Flatten([]) == []
  {
  }

  /** What one more line does to the governing timestamp and to the kept lines. */
  lemma FilterLine(lines: seq<seq<byte>>, i: nat, stamp: Stamp, w: Window)
    requires i < |lines|
    ensures var own, governing := stamp(lines[i]), Governing(lines[..i + 1], stamp);
            && governing == (if own.Some? then own else Governing(lines[..i], stamp))
            && KeptLines(lines[..i + 1], stamp, w)
               == if Admits(w, governing) then KeptLines(lines[..i], stamp, w) + [lines[i]]
                  else KeptLines(lines[..i], stamp, w)
  {
    assert lines[..i + 1][..i] == lines[..i];
  }

  // ----- Composition -----

  function FilterFile(content: seq<byte>, stamp: Stamp, w: Window): seq<byte>
  {
    Flatten(KeptLines(Lines(content), stamp, w))
  }

  function Later(a: Option<int>, b: Option<int>): Option<int>
  {
    if a.None? then b else if b.None? then a else if a.value <= b.value then b else a
  }

  function Earlier(a: Option<int>, b: Option<int>): Option<int>
  {
    if a.None? then b else if b.None? then a else if a.value <= b.value then a else b
  }

  function Intersection(v: Window, w: Window): Window
  {
    Window(Later(v.since, w.since), Earlier(v.until, w.until))
  }

  /** Filtering never changes which timestamp a kept line belongs to. */
  lemma {:induction false} KeptLinesKeepGoverning(lines: seq<seq<byte>>, stamp: Stamp, w: Window)
    requires Admits(w, Governing(lines, stamp))
    ensures Governing(KeptLines(lines, stamp, w), stamp) == Governing(lines, stamp)
  {
    if lines != [] {
      var init, last := lines[..|lines| - 1], lines[|lines| - 1];
      var kept := KeptLines(init, stamp, w);
      assert (kept + [last])[..|kept|] == kept;
      if stamp(last).None? {
        KeptLinesKeepGoverning(init, stamp, w);
      }
    }
  }

  lemma {:induction false} KeptLinesCompose(lines: seq<seq<byte>>, stamp: Stamp, v: Window, w: Window)
    ensures KeptLines(KeptLines(lines, stamp, v), stamp, w) == KeptLines(lines, stamp, Intersection(v, w))
  {
    if lines != [] {
      var init, last := lines[..|lines| - 1], lines[|lines| - 1];
      KeptLinesCompose(init, stamp, v, w);
      if Admits(v, Governing(lines, stamp)) {
        KeptLinesKeepGoverning(lines, stamp, v);
        var kept := KeptLines(init, stamp, v);
        assert KeptLines(lines, stamp, v) == kept + [last];
        assert (kept + [last])[..|kept|] == kept;
      }
    }
  }

  /** Filtering a file by one window and its output by another is filtering by the intersection. */
  lemma FiltersCompose(content: seq<byte>, stamp: Stamp, v: Window, w: Window)
    ensures FilterFile(FilterFile(content, stamp, v), stamp, w) == FilterFile(content, stamp, Intersection(v, w))
  {
    var lines := Lines(content);
    LinesAreALineList(content);
    KeptLinesAreALineList(lines, stamp, v);
    LinesOfFlatten(KeptLines(lines, stamp, v));
    KeptLinesCompose(lines, stamp, v, w);
  }

  // ----- Contiguity -----

  ghost predicate NeverDecreases(lines: seq<seq<byte>>, stamp: Stamp)
  {
    forall i, j :: 0 <= i < j < |lines| && stamp(lines[i]).Some? && stamp(lines[j]).Some? ==>
      stamp(lines[i]).value <= stamp(lines[j]).value
  }

  predicate KeptAt(lines: seq<seq<byte>>, stamp: Stamp, w: Window, i: nat)
    requires i < |lines|
  {
    Admits(w, Governing(lines[..i + 1], stamp))
  }

  /** Line j is the latest stamped line up to line i. */
  ghost predicate LatestStamped(lines: seq<seq<byte>>, stamp: Stamp, i: nat, j: nat)
    requires i < |lines|
  {
    j <= i && stamp(lines[j]).Some? && forall k :: j < k <= i ==> stamp(lines[k]).None?
  }

  lemma {:induction false} GoverningIsLatest(lines: seq<seq<byte>>, stamp: Stamp, i: nat)
    requires i < |lines|
    ensures forall j: nat :: LatestStamped(lines, stamp, i, j) ==> Governing(lines[..i + 1], stamp) == stamp(lines[j])
    ensures Governing(lines[..i + 1], stamp).Some? ==> exists j: nat :: LatestStamped(lines, stamp, i, j)
    ensures Governing(lines[..i + 1], stamp).None? <==> forall j :: 0 <= j <= i ==> stamp(lines[j]).None?
  {
    GoverningStep(lines, stamp, i);
    LatestStep(lines, stamp, i);
    hide Governing, LatestStamped;
    if stamp(lines[i]).None? && i != 0 {
      var before := i - 1;
      GoverningIsLatest(lines, stamp, before);
      assert lines[..before + 1] == lines[..i];
      if j: nat :| LatestStamped(lines, stamp, before, j) {
        assert LatestStamped(lines, stamp, i, j);
      }
    } else if stamp(lines[i]).Some? {
      assert LatestStamped(lines, stamp, i, i);
    }
  }

  lemma LatestStep(lines: seq<seq<byte>>, stamp: Stamp, i: nat)
    requires i < |lines|
    ensures stamp(lines[i]).Some? ==> forall j: nat :: LatestStamped(lines, stamp, i, j) <==> j == i
    ensures stamp(lines[i]).None? && i != 0 ==>
              forall j: nat :: LatestStamped(lines, stamp, i, j) <==> LatestStamped(lines, stamp, i - 1, j)
    ensures stamp(lines[i]).None? && i == 0 ==> forall j: nat :: !LatestStamped(lines, stamp, i, j)
  {
  }

  lemma GoverningStep(lines: seq<seq<byte>>, stamp: Stamp, i: nat)
    requires i < |lines|
    ensures Governing(lines[..i + 1], stamp)
         == if stamp(lines[i]).Some? then stamp(lines[i]) else Governing(lines[..i], stamp)
    ensures Governing(lines[..0], stamp) == None
  {
    assert lines[..i + 1][..i] == lines[..i];
  }

  /** Which lines are kept, by their times: a line whose latest stamped line is neither before `since`
      nor after `until`; and, without any stamp so far, only if no bound is given. */
  lemma KeptByTime(lines: seq<seq<byte>>, stamp: Stamp, w: Window, i: nat)
    requires i < |lines|
    ensures KeptAt(lines, stamp, w, i)
       <==> (exists j: nat :: LatestStamped(lines, stamp, i, j)
                && (w.since.Some? ==> w.since.value <= stamp(lines[j]).value)
                && (w.until.Some? ==> stamp(lines[j]).value <= w.until.value))
            || ((forall j :: 0 <= j <= i ==> stamp(lines[j]).None?) && w.since.None? && w.until.None?)
    ensures KeptLines(lines[..i + 1], stamp, w)
         == KeptLines(lines[..i], stamp, w) + if KeptAt(lines, stamp, w, i) then [lines[i]] else []
  {
    GoverningIsLatest(lines, stamp, i);
    FilterLine(lines, i, stamp, w);
    hide Governing, KeptLines;
    assert KeptLines(lines[..i], stamp, w) + [] == KeptLines(lines[..i], stamp, w);
  }

  lemma {:induction false} GoverningComesFrom(lines: seq<seq<byte>>, stamp: Stamp, n: nat) returns (i: int)
    requires n <= |lines| && Governing(lines[..n], stamp).Some?
    ensures 0 <= i < n && stamp(lines[i]) == Governing(lines[..n], stamp)
  {
    assert n != 0 && lines[..n][..n - 1] == lines[..n - 1];
    if stamp(lines[n - 1]).Some? {
      i := n - 1;
    } else {
      i := GoverningComesFrom(lines, stamp, n - 1);
    }
  }

  lemma {:induction false} GoverningGrows(lines: seq<seq<byte>>, stamp: Stamp, m: nat, n: nat)
    requires m <= n <= |lines| && NeverDecreases(lines, stamp)
    ensures Governing(lines[..m], stamp).Some? ==>
              Governing(lines[..n], stamp).Some?
              && Governing(lines[..m], stamp).value <= Governing(lines[..n], stamp).value
    decreases n
  {
    if m < n && Governing(lines[..m], stamp).Some? {
      GoverningGrows(lines, stamp, m, n - 1);
      assert lines[..n][..n - 1] == lines[..n - 1];
      if stamp(lines[n - 1]).Some? {
        var i := GoverningComesFrom(lines, stamp, m);
        assert stamp(lines[i]).value <= stamp(lines[n - 1]).value;
      }
    }
  }

  lemma NoGap(lines: seq<seq<byte>>, stamp: Stamp, w: Window, i: nat, j: nat, k: nat)
    requires i <= j <= k < |lines| && NeverDecreases(lines, stamp)
    requires KeptAt(lines, stamp, w, i) && KeptAt(lines, stamp, w, k)
    ensures KeptAt(lines, stamp, w, j)
  {
    GoverningGrows(lines, stamp, i + 1, j + 1);
    GoverningGrows(lines, stamp, j + 1, k + 1);
  }

  lemma PrefixKeeps(lines: seq<seq<byte>>, stamp: Stamp, w: Window, n: nat)
    requires n <= |lines|
    ensures forall i :: 0 <= i < n ==> (KeptAt(lines, stamp, w, i) <==> KeptAt(lines[..n], stamp, w, i))
  {
    forall i | 0 <= i < n ensures KeptAt(lines, stamp, w, i) <==> KeptAt(lines[..n], stamp, w, i) {
      assert lines[..n][..i + 1] == lines[..i + 1];
    }
  }

  lemma {:induction false} KeptIndicesFormBlock(lines: seq<seq<byte>>, stamp: Stamp, w: Window, n: nat)
    returns (from: nat, to: nat)
    requires NeverDecreases(lines, stamp) && n <= |lines|
    ensures from <= to <= n
    ensures forall i :: 0 <= i < n ==> (KeptAt(lines, stamp, w, i) <==> from <= i < to)
  {
    hide KeptAt, NeverDecreases;
    if n == 0 {
      from, to := 0, 0;
    } else {
      from, to := KeptIndicesFormBlock(lines, stamp, w, n - 1);
      if KeptAt(lines, stamp, w, n - 1) {
        if from < to {
          NoGap(lines, stamp, w, from, to, n - 1);
        } else {
          from := n - 1;
        }
        to := n;
      }
    }
  }

  lemma {:induction false} BlockIsKept(lines: seq<seq<byte>>, stamp: Stamp, w: Window, from: nat, to: nat)
    requires from <= to <= |lines|
    requires forall i :: 0 <= i < |lines| ==> (KeptAt(lines, stamp, w, i) <==> from <= i < to)
    ensures KeptLines(lines, stamp, w) == lines[from..to]
    decreases |lines|
  {
    if lines != [] {
      var n := |lines| - 1;
      var init := lines[..n];
      var from', to' := if from <= n then from else n, if to <= n then to else n;
      PrefixKeeps(lines, stamp, w, n);
      BlockIsKept(init, stamp, w, from', to');
      assert lines[..n + 1] == lines && init[from'..to'] == lines[from'..to'];
      assert KeptAt(lines, stamp, w, n) <==> to == n + 1 && from <= n;
    }
  }

  /** On ordered input the kept lines are one contiguous block. */
  lemma OrderedInputKeepsOneBlock(lines: seq<seq<byte>>, stamp: Stamp, w: Window) returns (from: nat, to: nat)
    requires NeverDecreases(lines, stamp)
    ensures from <= to <= |lines| && KeptLines(lines, stamp, w) == lines[from..to]
  {
    from, to := KeptIndicesFormBlock(lines, stamp, w, |lines|);
    BlockIsKept(lines, stamp, w, from, to);
  }
}
