/** The .tt file layout written by savePoints and read by loadPoints: the number of points,
    then twelve fields per point. The data stream is a sequence of tagged values, not bytes. */
module Stream {
  import opened Points

  /** One value written with `stream <<`, tagged with its kind. */
  datatype Field =
    | IntField(i: int)
    | TypeField(t: PType)
    | TextField(s: string)
    | RealField(r: Coord)
    | BoolField(b: bool)

  const FieldsPerPoint: nat := 12

  /** `QDataStream::Qt_6_0`, the version savePoints gives its stream and loadPoints checks for. */
  const Qt_6_0: int := 20

  /** savePoint: the twelve fields of a point, in declaration order. */
  function EncodePoint(p: Point): (fs: seq<Field>)
    ensures |fs| == FieldsPerPoint
  {
    [TypeField(p.ptype), TextField(p.name), RealField(p.x), RealField(p.y), BoolField(p.hasZ),
     RealField(p.z), RealField(p.ih), RealField(p.v0), RealField(p.ph), RealField(p.ha),
     RealField(p.va), RealField(p.id)]
  }

  /** The foreach loop of savePoints: the points one after the other. */
  function EncodeList(ps: seq<Point>): (fs: seq<Field>)
    ensures |fs| == FieldsPerPoint * |ps|
  {
    if ps == [] then [] else EncodeList(ps[..|ps| - 1]) + EncodePoint(ps[|ps| - 1])
  }

  /** A whole file: the count, then the points. */
  function EncodeFile(ps: seq<Point>): (fs: seq<Field>)
    ensures |fs| == 1 + FieldsPerPoint * |ps| && fs[0] == IntField(|ps|)
  {
    [IntField(|ps|)] + EncodeList(ps)
  }

  // Each `stream >>` takes the next field, so the k-th read of a record is the field at
  // offset k. As a data stream does on reading past its end, a missing field reads as the
  // zero value of its kind; a field of another kind also reads as the zero value.

  function IntAt(s: seq<Field>, k: nat): int
  {
    if k < |s| && s[k].IntField? then s[k].i else 0
  }

  function TypeAt(s: seq<Field>, k: nat): PType
  {
    if k < |s| && s[k].TypeField? then s[k].t else POINT
  }

  function TextAt(s: seq<Field>, k: nat): string
  {
    if k < |s| && s[k].TextField? then s[k].s else ""
  }

  function RealAt(s: seq<Field>, k: nat): Coord
  {
    if k < |s| && s[k].RealField? then s[k].r else 0.0
  }

  function BoolAt(s: seq<Field>, k: nat): bool
  {
    if k < |s| && s[k].BoolField? then s[k].b else false
  }

  /** A read past the end of the stream gives the zero value of its kind. */
  lemma ReadPastEndIsZero(s: seq<Field>, k: nat)
    requires |s| <= k
    ensures IntAt(s, k) == 0 && TypeAt(s, k) == POINT && TextAt(s, k) == ""
    ensures RealAt(s, k) == 0.0 && !BoolAt(s, k)
  {
  }

  /** What is left of the stream after `k` reads. */
  function Skip(s: seq<Field>, k: nat): (rest: seq<Field>)
    ensures |rest| == if k <= |s| then |s| - k else 0
  {
    if k <= |s| then s[k..] else []
  }

  /** loadPoint: the twelve reads, in the order of savePoint. */
  function DecodePoint(s: seq<Field>): (r: (Point, seq<Field>))
    ensures s == [] ==> r == (Blank, [])
  {
    (Point(TypeAt(s, 0), TextAt(s, 1), RealAt(s, 2), RealAt(s, 3), BoolAt(s, 4), RealAt(s, 5),
           RealAt(s, 6), RealAt(s, 7), RealAt(s, 8), RealAt(s, 9), RealAt(s, 10), RealAt(s, 11)),
     Skip(s, FieldsPerPoint))
  }

  /** The first `count` iterations of the loop of loadPoints: the points read so far and the
      rest of the stream. */
  function DecodePoints(s: seq<Field>, count: nat): (r: (seq<Point>, seq<Field>))
    ensures |r.0| == count
  {
    if count == 0 then ([], s)
    else
      var done := DecodePoints(s, count - 1);
      var next := DecodePoint(done.1);
      (done.0 + [next.0], next.1)
  }

  /** The points loadPoints reads from a file: a negative count reads none. */
  function DecodeFile(s: seq<Field>): (ps: seq<Point>)
    ensures |ps| == if IntAt(s, 0) < 0 then 0 else IntAt(s, 0)
  {
    var max := IntAt(s, 0);
    DecodePoints(Skip(s, 1), if max < 0 then 0 else max).0
  }

  /** loadPoint reads back exactly what savePoint wrote, and leaves what follows. */
  lemma DecodeEncodePoint(p: Point, tail: seq<Field>)
    ensures DecodePoint(EncodePoint(p) + tail) == (p, tail)
  {
  }

  /** Reading `|ps|` points back from the encoding of `ps` gives `ps`, in the same order. */
  lemma {:induction false} DecodeEncodeList(ps: seq<Point>, tail: seq<Field>)
    ensures DecodePoints(EncodeList(ps) + tail, |ps|) == (ps, tail)
  {
    if ps != [] {
      var init, last := ps[..|ps| - 1], ps[|ps| - 1];
      assert EncodeList(ps) + tail == EncodeList(init) + (EncodePoint(last) + tail);
      DecodeEncodeList(init, EncodePoint(last) + tail);
      DecodeEncodePoint(last, tail);
      assert init + [last] == ps;
    } else {
      assert EncodeList(ps) + tail == tail;
    }
  }

  /** Round trip of the .tt file: what savePoints writes, loadPoints reads back unchanged. */
  lemma SaveLoadRoundTrip(ps: seq<Point>)
    ensures DecodeFile(EncodeFile(ps)) == ps
  {
    var s := EncodeFile(ps);
    assert s[1..] == EncodeList(ps) + [];
    DecodeEncodeList(ps, []);
  }

  /** A count larger than the stream fills the list with blank points, as reads past the end
      of a data stream yield zero values. */
  lemma {:induction false} DecodePastEnd(count: nat)
    ensures DecodePoints([], count) == (seq(count, _ => Blank), [])
  {
    if count > 0 {
      DecodePastEnd(count - 1);
      assert DecodePoint([]) == (Blank, []);
      assert seq(count - 1, _ => Blank) + [Blank] == seq(count, _ => Blank);
    } else {
      assert seq(count, _ => Blank) == [];
    }
  }
}
