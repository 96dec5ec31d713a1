/** TT_DialogMain: the points list of the topography plugin and the operations that change it. */
module Dialog {
  import opened Wrappers
  import opened Points
  import opened Stream
  import opened Csv
  import opened ListEdits

  class DialogMain {
    /** The points of the active .tt file, in table order. */
    var points: seq<Point>

    /** The constructor reads the last file name from the settings and, when there is one,
        loads that file. */
    constructor (lastFileName: string, fileExists: bool, fileOpens: bool, readVersion: int,
                 stream: seq<Field>)
      ensures points ==
        if lastFileName != [] && fileExists && fileOpens && readVersion == Qt_6_0
        then DecodeFile(stream) else []
    {
      points := [];
      new;
      if lastFileName != [] {
        var loaded := LoadPoints(fileExists, fileOpens, readVersion, stream);
      }
    }

    /** loadPoints. The list is cleared first; a missing file, a file that does not open or a
        reading stream whose version is not Qt_6_0 gives -1 and an empty list. Otherwise the
        header count is read and that many points are appended in stream order.
        `readVersion` is the version of the reading stream at the check. The file carries no
        version: loadPoints never sets one, so as written it is the build's default version. */
    method LoadPoints(fileExists: bool, fileOpens: bool, readVersion: int, stream: seq<Field>)
      returns (nbPoints: int)
      modifies this
      ensures fileExists && fileOpens && readVersion == Qt_6_0 ==>
        points == DecodeFile(stream) && nbPoints == |points|
      ensures !(fileExists && fileOpens && readVersion == Qt_6_0) ==> points == [] && nbPoints == -1
    {
      nbPoints := 0;
      points := [];
      if !fileExists {
        return -1;
      }
      if !fileOpens {
        return -1;
      }
      if readVersion != Qt_6_0 {
        return -1;
      }
      var max := IntAt(stream, 0);
      var rest := Skip(stream, 1);
      var i := 0;
      while i < max
        invariant 0 <= i && (max >= 0 ==> i <= max) && (max < 0 ==> i == 0)
        invariant (points, rest) == DecodePoints(Skip(stream, 1), i)
        invariant nbPoints == i
      {
        var next := DecodePoint(rest);
        points := points + [next.0];
        rest := next.1;
        nbPoints := nbPoints + 1;
        i := i + 1;
      }
    }

    /** savePoints. A file that does not open gives -1 and nothing written; otherwise the count
        and then every point are written, and the number of points is returned. What is
        written reads back as the same list. */
    method SavePoints(fileOpens: bool) returns (nbPoints: int, written: seq<Field>)
      ensures !fileOpens ==> nbPoints == -1 && written == []
      ensures fileOpens ==> nbPoints == |points| && written == EncodeFile(points)
      ensures fileOpens ==> DecodeFile(written) == points
    {
      if !fileOpens {
        return -1, [];
      }
      written := [IntField(|points|)];
      nbPoints := 0;
      for i := 0 to |points|
        invariant written == [IntField(|points|)] + EncodeList(points[..i])
        invariant nbPoints == i
      {
        assert points[..i + 1][..i] == points[..i];
        written := written + EncodePoint(points[i]);
        nbPoints := nbPoints + 1;
      }
      assert points[..|points|] == points;
      SaveLoadRoundTrip(points);
    }

    /** importPoints. No file chosen, a missing file or one that does not open gives -1 and
        leaves the list alone; otherwise every accepted line is appended in file order and
        the number appended is returned. */
    method ImportPoints(chosen: bool, fileExists: bool, fileOpens: bool, lines: seq<string>,
                        toDouble: string -> Option<Coord>)
      returns (nbPoints: int)
      modifies this
      ensures chosen && fileExists && fileOpens ==>
        points == old(points) + ImportLines(lines, toDouble) && nbPoints == |ImportLines(lines, toDouble)|
      ensures !(chosen && fileExists && fileOpens) ==> points == old(points) && nbPoints == -1
    {
      nbPoints := 0;
      if !chosen {
        return -1;
      }
      if !fileExists {
        return -1;
      }
      if !fileOpens {
        return -1;
      }
      for i := 0 to |lines|
        invariant points == old(points) + ImportLines(lines[..i], toDouble)
        invariant nbPoints == |ImportLines(lines[..i], toDouble)|
      {
        assert lines[..i + 1][..i] == lines[..i];
        var r := ImportPoint(lines[i], Blank, toDouble);
        if r.0 {
          points := points + [r.1];
          nbPoints := nbPoints + 1;
        }
      }
      assert lines[..|lines|] == lines;
    }

    /** removePoints. The indexes are sorted and removed from the highest down, so each
        removal happens below every earlier one and hits the intended point. The result is
        the list with exactly those positions deleted. */
    method RemovePoints(indexesToRemove: seq<int>)
      requires Distinct(indexesToRemove)
      requires forall k :: 0 <= k < |indexesToRemove| ==> 0 <= indexesToRemove[k] < |points|
      modifies this
      ensures points == Keep(old(points), Elems(indexesToRemove))
      ensures |points| == |old(points)| - |indexesToRemove|
    {
      var sorted := SortAscending(indexesToRemove);
      SortedIndexes(indexesToRemove, |points|);
      ghost var original := points;
      var i := |sorted| - 1;
      assert Elems(sorted[i + 1..]) == {};
      KeepNothing(original, {});
      while i >= 0
        invariant -1 <= i < |sorted|
        invariant points == Keep(original, Elems(sorted[i + 1..]))
        invariant |points| == |original| - (|sorted| - 1 - i)
      {
        RemoveNextHighest(original, sorted, i);
        points := Remove(points, sorted[i]);
        i := i - 1;
      }
      assert sorted[i + 1..] == sorted;
    }

    /** movePointUp: the point at `index` trades places with the one above it. */
    method MovePointUp(index: int)
      requires 1 <= index < |points|
      modifies this
      ensures points == Move(old(points), index, index - 1)
      ensures points == old(points)[index := old(points)[index - 1]][index - 1 := old(points)[index]]
    {
      MoveAdjacentSwaps(points, index, index - 1);
      points := Move(points, index, index - 1);
    }

    /** movePointDown: the point at `index` trades places with the one below it. */
    method MovePointDown(index: int)
      requires 0 <= index < |points| - 1
      modifies this
      ensures points == Move(old(points), index, index + 1)
      ensures points == old(points)[index := old(points)[index + 1]][index + 1 := old(points)[index]]
    {
      MoveAdjacentSwaps(points, index, index + 1);
      points := Move(points, index, index + 1);
    }

    /** on_pbUp_clicked: moves the current row up when it has a row above it. */
    method OnUpClicked(currentRow: int)
      modifies this
      ensures 1 <= currentRow < |old(points)| ==> points == Move(old(points), currentRow, currentRow - 1)
      ensures !(1 <= currentRow < |old(points)|) ==> points == old(points)
    {
      if 1 <= currentRow < |points| {
        MovePointUp(currentRow);
      }
    }

    /** on_pbDown_clicked: moves the current row down when it has a row below it. */
    method OnDownClicked(currentRow: int)
      modifies this
      ensures 0 <= currentRow < |old(points)| - 1 ==> points == Move(old(points), currentRow, currentRow + 1)
      ensures !(0 <= currentRow < |old(points)| - 1) ==> points == old(points)
    {
      if 0 <= currentRow < |points| - 1 {
        MovePointDown(currentRow);
      }
    }

    /** The counting loop of drawPoints: only entries of type POINT are drawn and counted. */
    method DrawPoints() returns (nbPoints: int)
      ensures nbPoints == CountPoints(points)
    {
      nbPoints := 0;
      for i := 0 to |points|
        invariant nbPoints + CountPoints(points[i..]) == CountPoints(points)
      {
        assert points[i..][1..] == points[i + 1..];
        if points[i].ptype == POINT {
          nbPoints := nbPoints + 1;
        }
      }
    }
  }

  /** Saving and then opening the saved file, with the reading stream set to Qt_6_0 as
      savePoints sets the writing one, gives the list that was saved. */
  method SaveThenOpen(d: DialogMain) returns (nbSaved: int, nbLoaded: int)
    modifies d
    ensures d.points == old(d.points)
    ensures nbSaved == nbLoaded == |d.points|
  {
    var written;
    nbSaved, written := d.SavePoints(true);
    nbLoaded := d.LoadPoints(true, true, Qt_6_0, written);
  }

  /** Saving and then opening as loadPoints is written: the reading stream keeps the build's
      default version, so on a build whose default is not Qt_6_0 the saved list is lost. */
  method SaveThenOpenAsWritten(d: DialogMain, buildDefault: int) returns (nbSaved: int, nbLoaded: int)
    modifies d
    ensures nbSaved == |old(d.points)|
    ensures buildDefault == Qt_6_0 ==> d.points == old(d.points) && nbLoaded == nbSaved
    ensures buildDefault != Qt_6_0 ==> d.points == [] && nbLoaded == -1
  {
    var written;
    nbSaved, written := d.SavePoints(true);
    nbLoaded := d.LoadPoints(true, true, buildDefault, written);
  }

  /** What removePoints relies on after sorting distinct in-range indexes. */
  lemma SortedIndexes(indexes: seq<int>, n: nat)
    requires Distinct(indexes)
    requires forall k :: 0 <= k < |indexes| ==> 0 <= indexes[k] < n
    ensures var sorted := SortAscending(indexes);
      && StrictlyIncreasing(sorted)
      && |sorted| == |indexes|
      && Elems(sorted) == Elems(indexes)
      && forall k :: 0 <= k < |sorted| ==> 0 <= sorted[k] < n
  {
    var sorted := SortAscending(indexes);
    SortDistinctIsStrict(indexes);
    SortKeepsElems(indexes);
    forall k | 0 <= k < |sorted| ensures 0 <= sorted[k] < n {
      assert sorted[k] in Elems(indexes);
    }
  }

  /** One step of the loop of removePoints: deleting the next highest index. */
  lemma RemoveNextHighest(original: seq<Point>, sorted: seq<int>, i: nat)
    requires StrictlyIncreasing(sorted) && i < |sorted|
    requires forall k :: 0 <= k < |sorted| ==> 0 <= sorted[k] < |original|
    ensures sorted[i] < |Keep(original, Elems(sorted[i + 1..]))|
    ensures Remove(Keep(original, Elems(sorted[i + 1..])), sorted[i]) == Keep(original, Elems(sorted[i..]))
  {
    assert sorted[i..] == [sorted[i]] + sorted[i + 1..];
    assert Elems(sorted[i..]) == Elems(sorted[i + 1..]) + {sorted[i]};
    RemoveBelowDeleted(original, Elems(sorted[i + 1..]), sorted[i]);
  }

  /** Moving a point does not change the number of points drawn. */
  lemma MoveKeepsDrawCount(s: seq<Point>, from: nat, to: nat)
    requires from < |s| && to < |s|
    ensures CountPoints(Move(s, from, to)) == CountPoints(s)
  {
    var m := Move(s, from, to);
    CountPointsAt(s, from);
    CountPointsAt(m, to);
  }

  /** Importing adds to the draw count exactly the number of points imported. */
  lemma ImportAddsToDrawCount(before: seq<Point>, lines: seq<string>, toDouble: string -> Option<Coord>)
    ensures CountPoints(before + ImportLines(lines, toDouble))
         == CountPoints(before) + |ImportLines(lines, toDouble)|
  {
    CountPointsAppend(before, ImportLines(lines, toDouble));
    ImportedAreDrawn(lines, toDouble);
  }
}
