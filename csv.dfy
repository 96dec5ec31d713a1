/** CSV import of the topography plugin: a line is `x;y` or `x;y;z`. */
module Csv {
  import opened Wrappers
  import opened Points

  const Separator: char := ';'

  /** The number of separators in a line. */
  function CountSeparators(s: string): (n: nat)
    ensures n <= |s|
  {
    if s == [] then 0 else (if s[0] == Separator then 1 else 0) + CountSeparators(s[1..])
  }

  /** `QString::split(";")`: the parts between separators, empty parts kept. */
  function Split(s: string): (parts: seq<string>)
    ensures |parts| >= 1
    ensures |parts| == CountSeparators(s) + 1
    ensures forall k :: 0 <= k < |parts| ==> Separator !in parts[k]
  {
    if s == [] then [""]
    else
      var rest := Split(s[1..]);
      if s[0] == Separator then [""] + rest
      else [[s[0]] + rest[0]] + rest[1..]
  }

  /** The parts written back with a separator between each two. */
  function Join(parts: seq<string>): (s: string)
    requires |parts| >= 1
  {
    if |parts| == 1 then parts[0] else parts[0] + [Separator] + Join(parts[1..])
  }

  /** Joining the parts of a line gives the line back. */
  lemma {:induction false} JoinSplit(s: string)
    ensures Join(Split(s)) == s
  {
    if s != [] {
      var rest := Split(s[1..]);
      JoinSplit(s[1..]);
      if s[0] == Separator {
        assert Split(s) == [""] + rest;
        assert ([""] + rest)[1..] == rest;
      } else if |rest| == 1 {
        assert Split(s) == [[s[0]] + rest[0]];
      } else {
        var parts := Split(s);
        assert parts[1..] == rest[1..];
        assert s == [s[0]] + s[1..];
      }
    }
  }

  lemma {:induction false} SplitNoSeparator(w: string)
    requires Separator !in w
    ensures Split(w) == [w]
  {
    if w != [] {
      SplitNoSeparator(w[1..]);
      assert [w[0]] + w[1..] == w;
    }
  }

  lemma {:induction false} SplitAfterWord(w: string, s: string)
    requires Separator !in w
    ensures Split(w + [Separator] + s) == [w] + Split(s)
  {
    if w == [] {
      assert w + [Separator] + s == [Separator] + s;
      assert ([Separator] + s)[1..] == s;
    } else {
      var t := w + [Separator] + s;
      assert t[1..] == w[1..] + [Separator] + s;
      SplitAfterWord(w[1..], s);
      assert [w[0]] + w[1..] == w;
    }
  }

  /** Splitting a joined list of separator-free parts gives the parts back. */
  lemma {:induction false} SplitJoin(parts: seq<string>)
    requires |parts| >= 1
    requires forall k :: 0 <= k < |parts| ==> Separator !in parts[k]
    ensures Split(Join(parts)) == parts
  {
    if |parts| == 1 {
      SplitNoSeparator(parts[0]);
    } else {
      SplitJoin(parts[1..]);
      SplitAfterWord(parts[0], Join(parts[1..]));
      assert [parts[0]] + parts[1..] == parts;
    }
  }

  /** importPoint: a line with two or three fields, every one of which converts to a number,
      sets x and y (and z with hasZ for three fields) and is accepted; any other line is
      rejected and the point is left as it was. */
  function ImportPoint(line: string, point: Point, toDouble: string -> Option<Coord>): (r: (bool, Point))
    ensures var parts := Split(line);
      r.0 <==> 2 <= |parts| <= 3 && forall k :: 0 <= k < |parts| ==> toDouble(parts[k]).Some?
    ensures !r.0 ==> r.1 == point
    ensures r.1.(x := point.x, y := point.y, hasZ := point.hasZ, z := point.z) == point
    ensures r.0 ==> Some(r.1.x) == toDouble(Split(line)[0]) && Some(r.1.y) == toDouble(Split(line)[1])
    ensures r.0 && |Split(line)| == 2 ==> r.1.hasZ == point.hasZ && r.1.z == point.z
    ensures r.0 && |Split(line)| == 3 ==> r.1.hasZ && Some(r.1.z) == toDouble(Split(line)[2])
  {
    var parts := Split(line);
    if |parts| < 2 then (false, point)
    else if |parts| == 2 then
      var x := toDouble(parts[0]);
      if x.None? then (false, point)
      else
        var y := toDouble(parts[1]);
        if y.None? then (false, point)
        else (true, point.(x := x.value, y := y.value))
    else if |parts| == 3 then
      var x := toDouble(parts[0]);
      if x.None? then (false, point)
      else
        var y := toDouble(parts[1]);
        if y.None? then (false, point)
        else
          var z := toDouble(parts[2]);
          if z.None? then (false, point)
          else (true, point.(x := x.value, y := y.value, hasZ := true, z := z.value))
    else (false, point)
  }

  /** Only lines with one or two separators can be accepted. */
  lemma ImportPointNeedsOneOrTwoSeparators(line: string, point: Point, toDouble: string -> Option<Coord>)
    requires CountSeparators(line) < 1 || CountSeparators(line) > 2
    ensures ImportPoint(line, point, toDouble) == (false, point)
  {
  }

  /** The line loop of importPoints: each line is read into a fresh point, and the accepted
      ones are appended in file order. */
  function ImportLines(lines: seq<string>, toDouble: string -> Option<Coord>): (ps: seq<Point>)
    ensures |ps| <= |lines|
    ensures forall k :: 0 <= k < |ps| ==> ps[k].ptype == POINT && ps[k].name == ""
  {
    if lines == [] then []
    else
      var r := ImportPoint(lines[|lines| - 1], Blank, toDouble);
      ImportLines(lines[..|lines| - 1], toDouble) + (if r.0 then [r.1] else [])
  }

  /** Importing two files' worth of lines one after the other imports the two results in order. */
  lemma {:induction false} ImportLinesAppend(a: seq<string>, b: seq<string>, toDouble: string -> Option<Coord>)
    ensures ImportLines(a + b, toDouble) == ImportLines(a, toDouble) + ImportLines(b, toDouble)
  {
    if b == [] {
      assert a + b == a;
    } else {
      var b' := b[..|b| - 1];
      assert (a + b)[..|a + b| - 1] == a + b';
      assert (a + b)[|a + b| - 1] == b[|b| - 1];
      ImportLinesAppend(a, b', toDouble);
    }
  }

  /** Every line is imported exactly when ImportPoint accepts it. */
  lemma {:induction false} ImportLinesAllAccepted(lines: seq<string>, toDouble: string -> Option<Coord>)
    requires forall k :: 0 <= k < |lines| ==> ImportPoint(lines[k], Blank, toDouble).0
    ensures |ImportLines(lines, toDouble)| == |lines|
    ensures forall k :: 0 <= k < |lines| ==>
      ImportLines(lines, toDouble)[k] == ImportPoint(lines[k], Blank, toDouble).1
  {
    if lines != [] {
      ImportLinesAllAccepted(lines[..|lines| - 1], toDouble);
    }
  }

  /** Every imported entry is drawable: drawPoints counts all of them. */
  lemma ImportedAreDrawn(lines: seq<string>, toDouble: string -> Option<Coord>)
    ensures CountPoints(ImportLines(lines, toDouble)) == |ImportLines(lines, toDouble)|
  {
    CountPointsAllOrNone(ImportLines(lines, toDouble));
  }
}
