/** An InfluxDB server's points as the agent sees them: a map from series and time to fields.
    Writing a point whose series and time are already stored merges the two field sets, the
    new values winning, so the store is an upserting one. */
module Store {
  import opened Wrappers

  datatype FieldValue = Float(f: real) | Integer(i: int) | Boolean(b: bool) | Text(s: string)
  type Fields = map<string, FieldValue>
  type Tags = map<string, string>

  /** The database and retention policy a batch is addressed to. */
  datatype Dest = Dest(db: string, rp: string)
  datatype Point = Point(meas: string, tags: Tags, time: int, fields: Fields)
  datatype Key = Key(db: string, rp: string, meas: string, tags: Tags, time: int)
  type Db = map<Key, Fields>

  /** Batches may hold nil points; the client's write passes over them. */
  type Batch = seq<Option<Point>>

  function KeyOf(dst: Dest, p: Point): Key {
    Key(dst.db, dst.rp, p.meas, p.tags, p.time)
  }

  function Cell(s: Db, k: Key): Option<Fields> {
    if k in s then Some(s[k]) else None
  }

  /** What a cell holds once `new` has been written over `old`. */
  function Merge(old_: Option<Fields>, new_: Option<Fields>): Option<Fields> {
    match (old_, new_)
    case (_, None) => old_
    case (None, _) => new_
    case (Some(f), Some(g)) => Some(f + g)
  }

  function Put(s: Db, dst: Dest, p: Point): Db {
    s[KeyOf(dst, p) := Merge(Cell(s, KeyOf(dst, p)), Some(p.fields)).value]
  }

  /** One write of a whole batch, point by point, nil slots ignored. */
  function Write(s: Db, dst: Dest, b: Batch): Db
    decreases |b|
  {
    if b == [] then s
    else Write(if b[0].Some? then Put(s, dst, b[0].value) else s, dst, b[1..])
  }

  /** Everything a batch says about one cell. */
  function Overlay(dst: Dest, b: Batch, k: Key): Option<Fields> {
    if b == [] then None
    else
      var rest := Overlay(dst, b[1..], k);
      if b[0].Some? && KeyOf(dst, b[0].value) == k
      then Merge(Some(b[0].value.fields), rest)
      else rest
  }

  /** The point is stored, each of its fields with its value (other fields may be there too). */
  predicate Holds(s: Db, dst: Dest, p: Point) {
    var c := Cell(s, KeyOf(dst, p));
    c.Some? && c.value + p.fields == c.value
  }

  /** A write of one point: its cell gets its fields and keeps the others it had, the rest stays. */
  lemma PutMeans(s: Db, dst: Dest, p: Point, k: Key, f: string)
    ensures k != KeyOf(dst, p) ==> Cell(Put(s, dst, p), k) == Cell(s, k)
    ensures var k' := Key(dst.db, dst.rp, p.meas, p.tags, p.time);
            && k' in Put(s, dst, p)
            && (f in p.fields ==> f in Put(s, dst, p)[k'] && Put(s, dst, p)[k'][f] == p.fields[f])
            && (f !in p.fields && k' in s && f in s[k'] ==>
                  f in Put(s, dst, p)[k'] && Put(s, dst, p)[k'][f] == s[k'][f])
            && (f in Put(s, dst, p)[k'] ==> f in p.fields || (k' in s && f in s[k']))
  {
  }

  lemma MergeAssociates(a: Option<Fields>, b: Option<Fields>, c: Option<Fields>)
    ensures Merge(Merge(a, b), c) == Merge(a, Merge(b, c))
  {
    if a.Some? && b.Some? && c.Some? {
      assert (a.value + b.value) + c.value == a.value + (b.value + c.value);
    }
  }

  lemma MergeTwice(c: Option<Fields>, f: Fields)
    ensures Merge(Merge(c, Some(f)), Some(f)) == Merge(c, Some(f))
  {
    MergeAssociates(c, Some(f), Some(f));
    assert f + f == f;
  }

  lemma CellsDecide(s: Db, t: Db)
    requires forall k :: Cell(s, k) == Cell(t, k)
    ensures s == t
  {
    assert forall k :: k in s <==> Cell(s, k).Some?;
    assert forall k :: k in t <==> Cell(t, k).Some?;
    assert forall k :: k in s ==> Cell(s, k).value == s[k] && Cell(t, k).value == t[k];
  }

  /** A write acts on every cell by itself. */
  lemma {:induction false} WriteCell(s: Db, dst: Dest, b: Batch, k: Key)
    ensures Cell(Write(s, dst, b), k) == Merge(Cell(s, k), Overlay(dst, b, k))
    decreases |b|
  {
    if b != [] {
      var s' := if b[0].Some? then Put(s, dst, b[0].value) else s;
      WriteCell(s', dst, b[1..], k);
      if b[0].Some? && KeyOf(dst, b[0].value) == k {
        MergeAssociates(Cell(s, k), Some(b[0].value.fields), Overlay(dst, b[1..], k));
      }
    }
  }

  lemma {:induction false} WriteConcat(s: Db, dst: Dest, a: Batch, b: Batch)
    ensures Write(s, dst, a + b) == Write(Write(s, dst, a), dst, b)
    decreases |a|
  {
    if a == [] {
      assert a + b == b;
    } else {
      assert (a + b)[1..] == a[1..] + b;
      WriteConcat(if a[0].Some? then Put(s, dst, a[0].value) else s, dst, a[1..], b);
    }
  }

  lemma {:induction false} OverlayCovers(dst: Dest, b: Batch, p: Point)
    requires Some(p) in b
    ensures var o := Overlay(dst, b, KeyOf(dst, p)); o.Some? && p.fields.Keys <= o.value.Keys
  {
    if b[0] != Some(p) {
      assert Some(p) in b[1..];
      OverlayCovers(dst, b[1..], p);
    }
  }

  /** What an interrupted write left behind is covered by writing the batch again. */
  lemma {:induction false} OverlayAbsorbs(dst: Dest, part: Batch, b: Batch, k: Key)
    requires forall x :: x in part ==> x in b
    ensures Merge(Overlay(dst, part, k), Overlay(dst, b, k)) == Overlay(dst, b, k)
  {
    if part != [] {
      OverlayAbsorbs(dst, part[1..], b, k);
      if part[0].Some? && KeyOf(dst, part[0].value) == k {
        var f := part[0].value.fields;
        OverlayCovers(dst, b, part[0].value);
        assert f + Overlay(dst, b, k).value == Overlay(dst, b, k).value;
        MergeAssociates(Some(f), Overlay(dst, part[1..], k), Overlay(dst, b, k));
      }
    }
  }

  /** Writing any points of a batch first, in any order and any number of times, is undone by
      writing the batch. */
  lemma PartialThenWhole(s: Db, dst: Dest, part: Batch, b: Batch)
    requires forall x :: x in part ==> x in b
    ensures Write(Write(s, dst, part), dst, b) == Write(s, dst, b)
  {
    forall k
      ensures Cell(Write(Write(s, dst, part), dst, b), k) == Cell(Write(s, dst, b), k)
    {
      WriteCell(s, dst, part, k);
      WriteCell(Write(s, dst, part), dst, b, k);
      WriteCell(s, dst, b, k);
      MergeAssociates(Cell(s, k), Overlay(dst, part, k), Overlay(dst, b, k));
      OverlayAbsorbs(dst, part, b, k);
    }
    CellsDecide(Write(Write(s, dst, part), dst, b), Write(s, dst, b));
  }

  /** Two points of `rows` in the same series at the same time are the same point. */
  ghost predicate UniqueKeys(rows: iset<Point>) {
    forall p, q :: p in rows && q in rows && p.meas == q.meas && p.tags == q.tags && p.time == q.time
      ==> p == q
  }

  /** Cell k is as it was, or one of `rows` was merged into it. */
  ghost predicate CellMerged(s: Db, s': Db, dst: Dest, rows: iset<Point>, k: Key) {
    || Cell(s', k) == Cell(s, k)
    || exists p :: p in rows && KeyOf(dst, p) == k && Cell(s', k) == Merge(Cell(s, k), Some(p.fields))
  }

  /** s' is s with some of `rows`, unchanged, merged in at dst, and nothing else. */
  ghost predicate MergedFrom(s: Db, s': Db, dst: Dest, rows: iset<Point>) {
    forall k :: CellMerged(s, s', dst, rows, k)
  }

  lemma MergedTransitive(s: Db, s': Db, s'': Db, dst: Dest, rows: iset<Point>)
    requires UniqueKeys(rows)
    requires MergedFrom(s, s', dst, rows) && MergedFrom(s', s'', dst, rows)
    ensures MergedFrom(s, s'', dst, rows)
  {
    forall k ensures CellMerged(s, s'', dst, rows, k) {
      assert CellMerged(s, s', dst, rows, k) && CellMerged(s', s'', dst, rows, k);
      if Cell(s'', k) != Cell(s', k) && Cell(s', k) != Cell(s, k) {
        var p :| p in rows && KeyOf(dst, p) == k && Cell(s', k) == Merge(Cell(s, k), Some(p.fields));
        var q :| q in rows && KeyOf(dst, q) == k && Cell(s'', k) == Merge(Cell(s', k), Some(q.fields));
        assert p == q;
        MergeTwice(Cell(s, k), p.fields);
      }
    }
  }

  lemma MergedMonotone(s: Db, s': Db, dst: Dest, rows: iset<Point>, more: iset<Point>)
    requires MergedFrom(s, s', dst, rows)
    requires forall p :: p in rows ==> p in more
    ensures MergedFrom(s, s', dst, more)
  {
    forall k ensures CellMerged(s, s', dst, more, k) {
      assert CellMerged(s, s', dst, rows, k);
    }
  }

  /** A stored point stays stored while points with unique keys are merged in. */
  lemma MergedKeeps(s: Db, s': Db, dst: Dest, rows: iset<Point>, p: Point)
    requires UniqueKeys(rows) && p in rows
    requires MergedFrom(s, s', dst, rows) && Holds(s, dst, p)
    ensures Holds(s', dst, p)
  {
    var k := KeyOf(dst, p);
    assert CellMerged(s, s', dst, rows, k);
  }

  /** Overlay over rows with unique keys is the one row with that key, or nothing. */
  lemma {:induction false} OverlayUnique(dst: Dest, b: Batch, rows: iset<Point>, k: Key)
    requires UniqueKeys(rows)
    requires forall x :: x in b && x.Some? ==> x.value in rows
    ensures var o := Overlay(dst, b, k);
            || o.None?
            || exists p :: p in rows && Some(p) in b && KeyOf(dst, p) == k && o == Some(p.fields)
  {
    if b != [] {
      OverlayUnique(dst, b[1..], rows, k);
      var rest := Overlay(dst, b[1..], k);
      if b[0].Some? && KeyOf(dst, b[0].value) == k && rest.Some? {
        var p :| p in rows && Some(p) in b[1..] && KeyOf(dst, p) == k && rest == Some(p.fields);
        assert b[0].value in rows;
        assert p == b[0].value;
        assert p.fields + p.fields == p.fields;
        assert Overlay(dst, b, k) == Some(p.fields);
        assert Some(p) in b;
      } else if rest.Some? {
        var p :| p in rows && Some(p) in b[1..] && KeyOf(dst, p) == k && rest == Some(p.fields);
        assert Some(p) in b;
      } else if b[0].Some? && KeyOf(dst, b[0].value) == k {
        assert b[0].value in rows && Some(b[0].value) in b;
        assert Overlay(dst, b, k) == Some(b[0].value.fields);
      }
    }
  }

  /** Writing a batch of such rows merges rows only. */
  lemma WriteMerges(s: Db, dst: Dest, b: Batch, rows: iset<Point>)
    requires UniqueKeys(rows)
    requires forall x :: x in b && x.Some? ==> x.value in rows
    ensures MergedFrom(s, Write(s, dst, b), dst, rows)
  {
    forall k ensures CellMerged(s, Write(s, dst, b), dst, rows, k) {
      WriteCell(s, dst, b, k);
      OverlayUnique(dst, b, rows, k);
    }
  }

  /** A written row is stored. */
  lemma WriteStores(s: Db, dst: Dest, b: Batch, rows: iset<Point>, p: Point)
    requires UniqueKeys(rows) && p in rows && Some(p) in b
    requires forall x :: x in b && x.Some? ==> x.value in rows
    ensures Holds(Write(s, dst, b), dst, p)
  {
    var k := KeyOf(dst, p);
    WriteCell(s, dst, b, k);
    OverlayUnique(dst, b, rows, k);
    OverlayCovers(dst, b, p);
    var q :| q in rows && Some(q) in b && KeyOf(dst, q) == k && Overlay(dst, b, k) == Some(q.fields);
    assert q == p;
    assert p.fields + p.fields == p.fields;
    if Cell(s, k).Some? {
      var f := Cell(s, k).value;
      assert (f + p.fields) + p.fields == f + p.fields;
    }
  }
}
