/** Reading a window of one measurement, splitting the points into batches, and writing the
    batches with retries. */
module Client {
  import opened Wrappers
  import opened GoTime
  import opened Store
  import opened Faults
  import opened Retry

  datatype Row = Row(db: string, rp: string, point: Point)

  /** rw-max-retries, max-points-on-single-write and num-workers. The points limit is
      positive: zero would divide by zero in the split. */
  datatype RawConfig = Config(rwMaxRetries: int, maxPoints: int, numWorkers: int)
  type Config = c: RawConfig | c.maxPoints > 0 witness Config(5, 10000, 4)

  class Server {
    var data: Db

    constructor ()
      ensures data == map[]
    {
      data := map[];
    }
  }

  // ------------------------------------------------------------------ reading

  predicate InRange(lo: int, hi: int, t: int) {
    lo * SECOND < t < hi * SECOND
  }

  /** `select * from m where time > lo and time < hi` on one database and policy. */
  function Select(master: seq<Row>, db: string, rp: string, m: string, lo: int, hi: int): seq<Point> {
    if master == [] then []
    else
      var rest := Select(master[1..], db, rp, m, lo, hi);
      var r := master[0];
      if r.db == db && r.rp == rp && r.point.meas == m && InRange(lo, hi, r.point.time)
      then [r.point] + rest
      else rest
  }

  lemma {:induction false} SelectExact(master: seq<Row>, db: string, rp: string, m: string, lo: int, hi: int, p: Point)
    ensures p in Select(master, db, rp, m, lo, hi)
       <==> Row(db, rp, p) in master && p.meas == m && InRange(lo, hi, p.time)
  {
    if master != [] {
      SelectExact(master[1..], db, rp, m, lo, hi, p);
      assert Row(db, rp, p) in master <==> master[0] == Row(db, rp, p) || Row(db, rp, p) in master[1..];
    }
  }

  /** Each matching row comes once for each time it is stored, any other never. */
  lemma {:induction false} SelectCounts(master: seq<Row>, db: string, rp: string, m: string, lo: int, hi: int, p: Point)
    ensures multiset(Select(master, db, rp, m, lo, hi))[p]
         == if p.meas == m && InRange(lo, hi, p.time) then multiset(master)[Row(db, rp, p)] else 0
  {
    if master != [] {
      SelectCounts(master[1..], db, rp, m, lo, hi, p);
      assert master == [master[0]] + master[1..];
      assert multiset(master) == multiset{master[0]} + multiset(master[1..]);
      var rest := Select(master[1..], db, rp, m, lo, hi);
      assert multiset([master[0].point] + rest) == multiset{master[0].point} + multiset(rest);
    }
  }

  /** A point as client.NewPoint builds it from a row; a row without fields is refused. */
  function RowPoint(p: Point): Option<Point> {
    if p.fields == map[] then None
    else Some(p.(time := UnixNano(UnixNano2Time(p.time))))
  }

  function RowPoints(rows: seq<Point>): seq<Point> {
    if rows == [] then []
    else
      var init := RowPoints(rows[..|rows| - 1]);
      match RowPoint(rows[|rows| - 1])
      case None => init
      case Some(p) => init + [p]
  }

  /** A stored point has an int64 timestamp and at least one field. */
  predicate Storable(p: Point) {
    IsInt64(p.time) && p.fields != map[]
  }

  /** Points that a server can hold pass through the row loop unchanged. */
  lemma {:induction false} RowsUnchanged(rows: seq<Point>)
    requires forall p :: p in rows ==> Storable(p)
    ensures RowPoints(rows) == rows
  {
    if rows != [] {
      var n := |rows| - 1;
      assert rows[n] in rows;
      TimestampRoundTrip(rows[n].time);
      RowsUnchanged(rows[..n]);
      assert rows == rows[..n] + [rows[n]];
    }
  }

  /** Of any rows with int64 timestamps the loop drops those without fields and keeps the others. */
  lemma {:induction false} RowsKept(rows: seq<Point>, p: Point)
    requires forall r :: r in rows ==> IsInt64(r.time)
    ensures multiset(RowPoints(rows))[p] == if p.fields == map[] then 0 else multiset(rows)[p]
  {
    if rows != [] {
      var n := |rows| - 1;
      assert rows[n] in rows;
      RowsKept(rows[..n], p);
      RowPointsNext(rows);
      hide RowPoints;
      assert rows == rows[..n] + [rows[n]];
      CountNext(rows[..n], rows[n], p);
      CountNext(RowPoints(rows[..n]), rows[n], p);
    }
  }

  lemma RowPointsNext(rows: seq<Point>)
    requires rows != [] && IsInt64(rows[|rows| - 1].time)
    ensures var n := |rows| - 1;
            RowPoints(rows)
            == if rows[n].fields == map[] then RowPoints(rows[..n]) else RowPoints(rows[..n]) + [rows[n]]
  {
    TimestampRoundTrip(rows[|rows| - 1].time);
  }

  lemma CountNext<T>(a: seq<T>, x: T, p: T)
    ensures multiset(a + [x])[p] == multiset(a)[p] + if x == p then 1 else 0
  {
    assert multiset(a + [x]) == multiset(a) + multiset{x};
  }

  function QueryErrors(faults: Faults, at: Place): nat -> Option<()> {
    (n: nat) => if Site(at, QueryCall(n)) in faults then Some(()) else None
  }

  /** Some attempt of the query within the retry budget got an answer. */
  ghost predicate ReadSucceeds(faults: Faults, at: Place, r: int) {
    SomeSuccess(QueryErrors(faults, at), r)
  }

  /** The rows of one query turned into a batch of points and their number, or the error. */
  method ReadDB(rows: seq<Point>, faults: Faults, at: Place, r: int)
    returns (points: seq<Point>, totalpoints: nat, err: bool)
    ensures !err <==> ReadSucceeds(faults, at, r)
    ensures !err ==> points == RowPoints(rows)
    ensures err ==> points == []
    ensures totalpoints == |points|
  {
    points, totalpoints := [], 0;
    var fn := Callback(QueryErrors(faults, at), r);
    var res, calls := Do(fn);
    RetryBudget(QueryErrors(faults, at), r, calls, res);
    if res != Done {
      return [], 0, true;
    }
    err := false;
    var k := 0;
    while k < |rows|
      invariant 0 <= k <= |rows|
      invariant points == RowPoints(rows[..k])
      invariant totalpoints == |points|
    {
      var timestamp := UnixNano2Time(rows[k].time);
      assert rows[..k + 1][..k] == rows[..k];
      if rows[k].fields != map[] {
        points := points + [rows[k].(time := UnixNano(timestamp))];
        totalpoints := totalpoints + 1;
      }
      k := k + 1;
    }
    assert rows[..|rows|] == rows;
  }

  // ---------------------------------------------------------------- splitting

  function Slots(points: seq<Point>): Batch {
    seq(|points|, i requires 0 <= i < |points| => Some(points[i]))
  }

  /** The i-th sub-batch: always n slots, nil past the last point. */
  function SplitSlots(points: seq<Point>, n: int, i: nat): Batch
    requires n > 0
  {
    seq(n, j requires 0 <= j < n => if i * n + j < |points| then Some(points[i * n + j]) else None)
  }

  function Split(points: seq<Point>, n: int): seq<Batch>
    requires n > 0
  {
    if |points| < n then [Slots(points)]
    else seq(|points| / n + 1, i requires 0 <= i => SplitSlots(points, n, i))
  }

  /** The points of a list of batches in order, nil slots dropped. */
  function Unpad(b: Batch): seq<Point> {
    if b == [] then [] else (if b[0].Some? then [b[0].value] else []) + Unpad(b[1..])
  }

  function Flatten(bs: seq<Batch>): Batch {
    if bs == [] then [] else Flatten(bs[..|bs| - 1]) + bs[|bs| - 1]
  }

  method BpSplit(points: seq<Point>, splitnum: int) returns (ret: seq<Batch>)
    requires splitnum > 0
    ensures ret == Split(points, splitnum)
  {
    var len := |points|;
    var lim := len / splitnum + 1;
    if len < splitnum {
      return [Slots(points)];
    }
    ret := [];
    var i := 0;
    while i < lim
      invariant 0 <= i <= lim
      invariant |ret| == i
      invariant forall k :: 0 <= k < i ==> ret[k] == SplitSlots(points, splitnum, k)
    {
      var init := i * splitnum;
      var end := Min((i + 1) * splitnum, len);
      SliceInBounds(len, splitnum, i);
      var part := points[init..end];
      var pointchunk := seq(splitnum, j requires 0 <= j < splitnum => if j < |part| then Some(part[j]) else None);
      assert pointchunk == SplitSlots(points, splitnum, i);
      ret := ret + [pointchunk];
      i := i + 1;
    }
  }

  lemma SliceInBounds(len: nat, n: int, i: nat)
    requires n > 0 && i <= len / n
    ensures 0 <= i * n <= len
    ensures i < len / n ==> (i + 1) * n <= len
    ensures i == len / n ==> len < (i + 1) * n
  {
    assert len == (len / n) * n + len % n;
    assert i * n + (len / n - i) * n == (len / n) * n;
    assert (len / n - i) * n >= 0;
    if i < len / n {
      MulGe(len / n - i, n);
    }
    assert (i + 1) * n == i * n + n;
  }

  lemma {:induction false} FlattenSnoc(bs: seq<Batch>, k: nat)
    requires k < |bs|
    ensures Flatten(bs[..k + 1]) == Flatten(bs[..k]) + bs[k]
  {
    assert bs[..k + 1][..k] == bs[..k];
  }

  lemma {:induction false} UnpadConcat(a: Batch, b: Batch)
    ensures Unpad(a + b) == Unpad(a) + Unpad(b)
  {
    if a == [] {
      assert a + b == b;
    } else {
      assert (a + b)[1..] == a[1..] + b;
      UnpadConcat(a[1..], b);
      var x: seq<Point> := if a[0].Some? then [a[0].value] else [];
      assert Unpad(a + b) == x + Unpad(a[1..] + b);
      assert x + (Unpad(a[1..]) + Unpad(b)) == (x + Unpad(a[1..])) + Unpad(b);
    }
  }

  lemma {:induction false} UnpadSlots(points: seq<Point>, pad: nat)
    ensures Unpad(Slots(points) + seq(pad, _ => None)) == points
    decreases |points| + pad
  {
    var b: Batch := Slots(points) + seq(pad, _ => None);
    if points != [] {
      assert b[1..] == Slots(points[1..]) + seq(pad, _ => None);
      UnpadSlots(points[1..], pad);
      assert points == [points[0]] + points[1..];
    } else if pad > 0 {
      assert b[1..] == Slots(points) + seq(pad - 1, _ => None);
      UnpadSlots(points, pad - 1);
    }
  }

  function SplitEdge(len: nat, n: int, k: nat): (e: nat)
    requires n > 0
    ensures e <= len
  {
    Min(k * n, len)
  }

  ghost predicate Piece(points: seq<Point>, b: Batch, lo: nat, hi: nat) {
    lo <= hi <= |points| && Unpad(b) == points[lo..hi]
  }

  /** The i-th sub-batch holds the points from i * n up to (i + 1) * n, or up to the last one. */
  lemma SplitPiece(points: seq<Point>, n: int, i: nat)
    requires n > 0 && i <= |points| / n
    ensures Piece(points, SplitSlots(points, n, i), SplitEdge(|points|, n, i), SplitEdge(|points|, n, i + 1))
    ensures i == |points| / n ==> SplitEdge(|points|, n, i + 1) == |points|
  {
    SliceInBounds(|points|, n, i);
    assert (i + 1) * n == i * n + n;
    SlotsFrom(points, n, i, i * n);
  }

  lemma SlotsFrom(points: seq<Point>, n: int, i: nat, lo: nat)
    requires n > 0 && lo == i * n && lo <= |points|
    ensures Unpad(SplitSlots(points, n, i)) == points[lo..Min(lo + n, |points|)]
  {
    var part := points[lo..Min(lo + n, |points|)];
    var padded := Slots(part) + seq(n - |part|, _ => None);
    forall j | 0 <= j < n ensures padded[j] == SplitSlots(points, n, i)[j] {
      assert j < |part| <==> lo + j < |points|;
    }
    assert padded == SplitSlots(points, n, i);
    UnpadSlots(part, n - |part|);
  }

  /** Batches that hold consecutive slices of the points hold all of them together. */
  lemma {:induction false} PiecesJoin(points: seq<Point>, bs: seq<Batch>, edge: seq<nat>, i: nat)
    requires |edge| == |bs| + 1 && i <= |bs| && edge[0] == 0
    requires forall k :: 0 <= k < |bs| ==> Piece(points, bs[k], edge[k], edge[k + 1])
    ensures edge[i] <= |points| && Unpad(Flatten(bs[..i])) == points[..edge[i]]
  {
    if i > 0 {
      PiecesJoin(points, bs, edge, i - 1);
      assert Piece(points, bs[i - 1], edge[i - 1], edge[i - 1 + 1]);
      FlattenSnoc(bs, i - 1);
      UnpadConcat(Flatten(bs[..i - 1]), bs[i - 1]);
      assert points[..edge[i - 1]] + points[edge[i - 1]..edge[i]] == points[..edge[i]];
    }
  }

  /** Splitting loses nothing, repeats nothing and keeps the order; no batch is over the limit. Fewer
      points than the limit stay one batch; otherwise every batch has as many slots as the limit,
      the points it holds first. */
  lemma SplitLossless(points: seq<Point>, n: int)
    requires n > 0
    ensures Unpad(Flatten(Split(points, n))) == points
    ensures forall b :: b in Split(points, n) ==> |b| <= n
    ensures |Split(points, n)| == |points| / n + 1
    ensures |points| < n ==> |Split(points, n)[0]| == |points|
    ensures |points| >= n ==> forall b :: b in Split(points, n) ==> |b| == n
    ensures forall i, j :: 0 <= i < |points| / n + 1 && 0 <= j < |Split(points, n)[i]| ==>
              (Split(points, n)[i][j].Some? <==> i * n + j < |points|)
  {
    if |points| < n {
      SplitShort(points, n);
      SmallQuotient(|points|, n);
    } else {
      SplitLong(points, n, |points| / n);
    }
  }

  lemma SmallQuotient(a: nat, n: int)
    requires a < n
    ensures a / n == 0
  {
  }

  lemma SplitShort(points: seq<Point>, n: int)
    requires n > 0 && |points| < n
    ensures Unpad(Flatten(Split(points, n))) == points
  {
    var bs := [Slots(points)];
    assert bs[..1] == bs;
    FlattenSnoc(bs, 0);
    UnpadSlots(points, 0);
    assert Slots(points) + seq(0, _ => None) == Slots(points);
    assert Flatten(bs) == Slots(points);
  }

  lemma FirstEdge(len: nat, n: int)
    requires n > 0
    ensures SplitEdge(len, n, 0) == 0
  {
  }

  lemma SplitLong(points: seq<Point>, n: int, q: nat)
    requires n > 0 && n <= |points| && q == |points| / n
    ensures Unpad(Flatten(Split(points, n))) == points
  {
    hide SplitSlots, SplitEdge, Piece, Unpad, Flatten;
    var bs := Split(points, n);
    var edge: seq<nat> := seq(q + 2, k requires 0 <= k => SplitEdge(|points|, n, k));
    assert edge[0] == 0 by { FirstEdge(|points|, n); }
    forall k | 0 <= k < |bs| ensures Piece(points, bs[k], edge[k], edge[k + 1]) {
      SplitPiece(points, n, k);
    }
    SplitPiece(points, n, q);
    PiecesJoin(points, bs, edge, q + 1);
    assert bs[..q + 1] == bs;
    assert points[..|points|] == points;
  }

  // ------------------------------------------------------------------ writing

  /** What is left of `got` when only points of the batch count: a failed write can store
      nothing else. */
  function Landed(got: seq<Point>, b: Batch): Batch {
    if got == [] then []
    else (if Some(got[0]) in b then [Some(got[0])] else []) + Landed(got[1..], b)
  }

  /** One call of Write: it stores the whole batch, or reports an error having stored some of it. */
  function AttemptWrite(s: Db, dst: Dest, b: Batch, faults: Faults, site: Site): Db {
    Write(s, dst, if site in faults then Landed(faults[site], b) else b)
  }

  /** A failed call may have stored any points of its batch, and nothing else; a call without an error
      has stored the whole batch. */
  lemma {:induction false} LandedAll(got: seq<Point>, b: Batch)
    requires forall p :: p in got ==> Some(p) in b
    ensures Landed(got, b) == Slots(got)
  {
    if got != [] {
      LandedAll(got[1..], b);
      assert got[0] in got;
      assert Slots(got) == [Some(got[0])] + Slots(got[1..]);
    }
  }

  lemma AttemptMeans(s: Db, dst: Dest, b: Batch, faults: Faults, site: Site, got: seq<Point>)
    requires forall p :: p in got ==> Some(p) in b
    ensures AttemptWrite(s, dst, b, faults[site := got], site) == Write(s, dst, Slots(got))
    ensures site !in faults ==> AttemptWrite(s, dst, b, faults, site) == Write(s, dst, b)
  {
    LandedAll(got, b);
  }

  datatype Written = Written(store: Db, ok: bool)

  /** Sub-batch k from attempt n on. */
  function WriteFrom(s: Db, dst: Dest, b: Batch, faults: Faults, at: Place, k: nat, r: int, n: nat): Written
    decreases MAX_RETRIES - n
  {
    var site := Site(at, WriteCall(k, n));
    var s' := AttemptWrite(s, dst, b, faults, site);
    if site !in faults then Written(s', true)
    else if n < r && n < MAX_RETRIES then WriteFrom(s', dst, b, faults, at, k, r, n + 1)
    else Written(s', false)
  }

  /** Sub-batches k.. in order, giving up at the first that fails. */
  function WriteBatches(s: Db, dst: Dest, bs: seq<Batch>, faults: Faults, at: Place, r: int, k: nat): Written
    decreases |bs| - k
  {
    if k >= |bs| then Written(s, true)
    else
      var w := WriteFrom(s, dst, bs[k], faults, at, k, r, 1);
      if w.ok then WriteBatches(w.store, dst, bs, faults, at, r, k + 1) else w
  }

  function WriteErrors(faults: Faults, at: Place, k: nat): nat -> Option<()> {
    (n: nat) => if Site(at, WriteCall(k, n)) in faults then Some(()) else None
  }

  /** Every attempt before the n-th failed and was to be followed by another. */
  ghost predicate GoneOn(faults: Faults, at: Place, k: nat, r: int, n: nat) {
    forall i :: 1 <= i < n ==> !Stops(Callback(WriteErrors(faults, at, k), r)(i))
  }

  lemma AttemptEnds(faults: Faults, at: Place, k: nat, r: int, n: nat)
    requires 1 <= n <= MAX_RETRIES && GoneOn(faults, at, k, r, n)
    ensures var err, fn := Site(at, WriteCall(k, n)) in faults, Callback(WriteErrors(faults, at, k), r);
            && (!err ==> Ended(fn, n, Done))
            && (err && n >= r ==> Ended(fn, n, Failed(())))
            && (err && n < r && n == MAX_RETRIES ==> Ended(fn, n, RetryLimit))
            && (err && n < r ==> GoneOn(faults, at, k, r, n + 1))
  {
  }

  /** The retry loop around one sub-batch: the calls and the result of Do with a callback that
      writes. */
  method WriteRetried(srv: Server, dst: Dest, b: Batch, faults: Faults, at: Place, k: nat, r: int)
    returns (res: Outcome<()>, calls: nat)
    modifies srv
    ensures Ended(Callback(WriteErrors(faults, at, k), r), calls, res)
    ensures Written(srv.data, res == Done) == WriteFrom(old(srv.data), dst, b, faults, at, k, r, 1)
  {
    hide AttemptWrite, Ended;
    var attempt := 1;
    while true
      invariant 1 <= attempt <= MAX_RETRIES
      invariant GoneOn(faults, at, k, r, attempt)
      invariant WriteFrom(srv.data, dst, b, faults, at, k, r, attempt)
             == WriteFrom(old(srv.data), dst, b, faults, at, k, r, 1)
      decreases MAX_RETRIES - attempt
    {
      var site := Site(at, WriteCall(k, attempt));
      srv.data := AttemptWrite(srv.data, dst, b, faults, site);
      var err := site in faults;
      var cont := attempt < r;
      AttemptEnds(faults, at, k, r, attempt);
      if !cont || !err {
        return (if err then Failed(()) else Done), attempt;
      }
      if attempt + 1 > MAX_RETRIES {
        return RetryLimit, attempt;
      }
      attempt := attempt + 1;
    }
  }

  method WriteDB(srv: Server, dst: Dest, points: seq<Point>, faults: Faults, at: Place, cfg: Config)
    returns (err: bool)
    modifies srv
    ensures Written(srv.data, !err)
         == WriteBatches(old(srv.data), dst, Split(points, cfg.maxPoints), faults, at, cfg.rwMaxRetries, 0)
  {
    var sbp := BpSplit(points, cfg.maxPoints);
    var k := 0;
    while k < |sbp|
      invariant 0 <= k <= |sbp|
      invariant WriteBatches(srv.data, dst, sbp, faults, at, cfg.rwMaxRetries, k)
             == WriteBatches(old(srv.data), dst, sbp, faults, at, cfg.rwMaxRetries, 0)
    {
      var res, _ := WriteRetried(srv, dst, sbp[k], faults, at, k, cfg.rwMaxRetries);
      if res != Done {
        return true;
      }
      k := k + 1;
    }
    err := false;
  }

  lemma {:induction false} LandedInBatch(got: seq<Point>, b: Batch)
    ensures forall x :: x in Landed(got, b) ==> x in b
  {
    if got != [] {
      LandedInBatch(got[1..], b);
    }
  }

  /** All that attempts n.. on sub-batch k store, in order. */
  function Stored(b: Batch, faults: Faults, at: Place, k: nat, r: int, n: nat): Batch
    decreases MAX_RETRIES - n
  {
    var site := Site(at, WriteCall(k, n));
    if site !in faults then b
    else
      Landed(faults[site], b)
      + if n < r && n < MAX_RETRIES then Stored(b, faults, at, k, r, n + 1) else []
  }

  /** Whether one of the attempts n.. on sub-batch k goes through. */
  predicate Accepts(faults: Faults, at: Place, k: nat, r: int, n: nat)
    decreases MAX_RETRIES - n
  {
    Site(at, WriteCall(k, n)) !in faults
    || (n < r && n < MAX_RETRIES && Accepts(faults, at, k, r, n + 1))
  }

  lemma {:induction false} FromStores(s: Db, dst: Dest, b: Batch, faults: Faults, at: Place, k: nat, r: int, n: nat)
    ensures WriteFrom(s, dst, b, faults, at, k, r, n)
         == Written(Write(s, dst, Stored(b, faults, at, k, r, n)), Accepts(faults, at, k, r, n))
    ensures forall x :: x in Stored(b, faults, at, k, r, n) ==> x in b
    decreases MAX_RETRIES - n
  {
    var site := Site(at, WriteCall(k, n));
    if site in faults {
      var part := Landed(faults[site], b);
      LandedInBatch(faults[site], b);
      if n < r && n < MAX_RETRIES {
        FromStores(Write(s, dst, part), dst, b, faults, at, k, r, n + 1);
        WriteConcat(s, dst, part, Stored(b, faults, at, k, r, n + 1));
      } else {
        assert part + [] == part;
      }
    }
  }

  function StoredAll(bs: seq<Batch>, faults: Faults, at: Place, r: int, k: nat): Batch
    decreases |bs| - k
  {
    if k >= |bs| then []
    else
      Stored(bs[k], faults, at, k, r, 1)
      + if Accepts(faults, at, k, r, 1) then StoredAll(bs, faults, at, r, k + 1) else []
  }

  predicate AcceptsAll(bs: seq<Batch>, faults: Faults, at: Place, r: int, k: nat)
    decreases |bs| - k
  {
    k >= |bs| || (Accepts(faults, at, k, r, 1) && AcceptsAll(bs, faults, at, r, k + 1))
  }

  /** What a run of sub-batches stores, and whether it succeeds, does not depend on the store. */
  lemma {:induction false} BatchesStore(s: Db, dst: Dest, bs: seq<Batch>, faults: Faults, at: Place, r: int, k: nat)
    ensures WriteBatches(s, dst, bs, faults, at, r, k)
         == Written(Write(s, dst, StoredAll(bs, faults, at, r, k)), AcceptsAll(bs, faults, at, r, k))
    decreases |bs| - k
  {
    if k < |bs| {
      var part := Stored(bs[k], faults, at, k, r, 1);
      FromStores(s, dst, bs[k], faults, at, k, r, 1);
      if Accepts(faults, at, k, r, 1) {
        BatchesStore(Write(s, dst, part), dst, bs, faults, at, r, k + 1);
        WriteConcat(s, dst, part, StoredAll(bs, faults, at, r, k + 1));
      } else {
        assert part + [] == part;
      }
    }
  }

  lemma {:induction false} StoredAllFrom(bs: seq<Batch>, faults: Faults, at: Place, r: int, k: nat, x: Option<Point>)
    requires x in StoredAll(bs, faults, at, r, k)
    ensures exists b :: b in bs && x in b
    decreases |bs| - k
  {
    var part := Stored(bs[k], faults, at, k, r, 1);
    if x in part {
      FromStores(map[], Dest("", ""), bs[k], faults, at, k, r, 1);
      assert bs[k] in bs && x in bs[k];
    } else {
      StoredAllFrom(bs, faults, at, r, k + 1, x);
    }
  }

  /** Attempts n.. on one sub-batch: they succeed exactly when one of the attempts left in the
      budget does, and then the store is the single write of the batch. */
  lemma {:induction false} RetriedOnce(s: Db, dst: Dest, b: Batch, faults: Faults, at: Place, k: nat, r: int, n: nat)
    requires 1 <= n <= Budget(r)
    ensures var w := WriteFrom(s, dst, b, faults, at, k, r, n);
            && (w.ok ==> w.store == Write(s, dst, b))
            && (w.ok <==> exists i :: n <= i <= Budget(r) && WriteErrors(faults, at, k)(i).None?)
    decreases MAX_RETRIES - n
  {
    var site := Site(at, WriteCall(k, n));
    assert WriteErrors(faults, at, k)(n).None? <==> site !in faults;
    if site in faults {
      var part := Landed(faults[site], b);
      LandedInBatch(faults[site], b);
      if n < r && n < MAX_RETRIES {
        RetriedOnce(Write(s, dst, part), dst, b, faults, at, k, r, n + 1);
        PartialThenWhole(s, dst, part, b);
      }
    }
  }

  /** A sub-batch whose every attempt left fails leaves behind what its attempts stored. */
  lemma {:induction false} RefusedStores(s: Db, dst: Dest, b: Batch, faults: Faults, at: Place, k: nat, r: int, n: nat,
        got: seq<Point>)
    requires 1 <= n <= Budget(r) && forall p :: p in got ==> Some(p) in b
    requires forall i :: n <= i <= Budget(r) ==>
               Site(at, WriteCall(k, i)) in faults && faults[Site(at, WriteCall(k, i))] == got
    ensures WriteFrom(s, dst, b, faults, at, k, r, n) == Written(Write(s, dst, Slots(got)), false)
    decreases MAX_RETRIES - n
  {
    LandedAll(got, b);
    assert Site(at, WriteCall(k, n)) in faults;
    if n < r && n < MAX_RETRIES {
      RefusedStores(Write(s, dst, Slots(got)), dst, b, faults, at, k, r, n + 1, got);
      PartialThenWhole(s, dst, Slots(got), Slots(got));
    }
  }

  ghost predicate BatchAccepted(faults: Faults, at: Place, k: nat, r: int) {
    SomeSuccess(WriteErrors(faults, at, k), r)
  }

  lemma RetriedMeans(s: Db, dst: Dest, b: Batch, faults: Faults, at: Place, k: nat, r: int)
    ensures var w := WriteFrom(s, dst, b, faults, at, k, r, 1);
            (w.ok <==> BatchAccepted(faults, at, k, r)) && (w.ok ==> w.store == Write(s, dst, b))
  {
    RetriedOnce(s, dst, b, faults, at, k, r, 1);
  }

  /** Writing batches k.. after the first k are in: either all are accepted and the store is one
      write of them all, or f is the first refused one and the store is one write of the batches
      before it followed by the attempts on f, with nothing written after. */
  lemma {:induction false} BatchesOnce(s: Db, dst: Dest, bs: seq<Batch>, faults: Faults, at: Place, r: int, k: nat)
    returns (f: nat)
    requires k <= |bs|
    ensures k <= f <= |bs|
    ensures forall i :: k <= i < f ==> BatchAccepted(faults, at, i, r)
    ensures f < |bs| ==> !BatchAccepted(faults, at, f, r)
    ensures var s0 := Write(s, dst, Flatten(bs[..k]));
            var done := Write(s, dst, Flatten(bs[..f]));
            WriteBatches(s0, dst, bs, faults, at, r, k)
            == if f == |bs| then Written(done, true)
               else Written(WriteFrom(done, dst, bs[f], faults, at, f, r, 1).store, false)
    decreases |bs| - k
  {
    if k == |bs| {
      return k;
    }
    var s0 := Write(s, dst, Flatten(bs[..k]));
    RetriedMeans(s0, dst, bs[k], faults, at, k, r);
    if !BatchAccepted(faults, at, k, r) {
      return k;
    }
    FlattenSnoc(bs, k);
    WriteConcat(s, dst, Flatten(bs[..k]), bs[k]);
    f := BatchesOnce(s, dst, bs, faults, at, r, k + 1);
  }

  lemma {:induction false} WriteUnpadded(s: Db, dst: Dest, b: Batch)
    ensures Write(s, dst, Slots(Unpad(b))) == Write(s, dst, b)
    decreases |b|
  {
    if b != [] {
      var u := Unpad(b);
      if b[0].Some? {
        assert Slots(u)[1..] == Slots(Unpad(b[1..]));
        WriteUnpadded(Put(s, dst, b[0].value), dst, b[1..]);
      } else {
        assert u == Unpad(b[1..]);
        WriteUnpadded(s, dst, b[1..]);
      }
    }
  }

  /** At-least-once is once: a write without error leaves the store that one upsert of all the
      points leaves, however often and however partially its batches were tried. It succeeds
      exactly when every sub-batch is accepted within its retry budget. */
  lemma WriteOnce(s: Db, dst: Dest, points: seq<Point>, faults: Faults, at: Place, cfg: Config)
    ensures var bs := Split(points, cfg.maxPoints);
            var w := WriteBatches(s, dst, bs, faults, at, cfg.rwMaxRetries, 0);
            && (w.ok ==> w.store == Write(s, dst, Slots(points)))
            && (w.ok <==> forall k :: 0 <= k < |bs| ==> BatchAccepted(faults, at, k, cfg.rwMaxRetries))
  {
    var bs := Split(points, cfg.maxPoints);
    assert Flatten(bs[..0]) == [];
    var f := BatchesOnce(s, dst, bs, faults, at, cfg.rwMaxRetries, 0);
    SplitLossless(points, cfg.maxPoints);
    assert bs[..|bs|] == bs;
    WriteUnpadded(s, dst, Flatten(bs));
  }

  /** A failed write stops at the first sub-batch f that is never accepted: those before it are
      fully stored, f is stored in part at most, and those after it were not attempted. */
  lemma WriteStopsAtFailure(s: Db, dst: Dest, points: seq<Point>, faults: Faults, at: Place, cfg: Config)
    returns (f: nat)
    requires !WriteBatches(s, dst, Split(points, cfg.maxPoints), faults, at, cfg.rwMaxRetries, 0).ok
    ensures var bs := Split(points, cfg.maxPoints);
            var r := cfg.rwMaxRetries;
            && f < |bs|
            && (forall i :: 0 <= i < f ==> BatchAccepted(faults, at, i, r))
            && !BatchAccepted(faults, at, f, r)
            && exists part: Batch :: (forall x :: x in part ==> x in bs[f])
                 && WriteBatches(s, dst, bs, faults, at, r, 0).store
                    == Write(s, dst, Flatten(bs[..f]) + part)
  {
    var bs := Split(points, cfg.maxPoints);
    assert Flatten(bs[..0]) == [];
    f := BatchesOnce(s, dst, bs, faults, at, cfg.rwMaxRetries, 0);
    var done := Write(s, dst, Flatten(bs[..f]));
    var part := Stored(bs[f], faults, at, f, cfg.rwMaxRetries, 1);
    FromStores(done, dst, bs[f], faults, at, f, cfg.rwMaxRetries, 1);
    WriteConcat(s, dst, Flatten(bs[..f]), part);
  }
}
