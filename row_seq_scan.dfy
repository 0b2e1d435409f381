/** The batch row sequential scan: the scan ranges a plan asks for, the
    bounds handed to storage for a range scan, and how the executor cuts its
    output into chunks under a row limit. */
module RowSeqScan {
  import opened Wrappers

  // The messages of the errors and panics modelled below.
  const NO_EQ_COLUMN: string := "no key type left for an equality condition"
  const NO_BOUND_COLUMN: string := "no key type left for the bound column"
  const PREFIX_TOO_LONG: string := "range scan prefix must be shorter than the key"
  const ORDERED_NEEDS_ONE_RANGE: string := "an ordered scan takes exactly one range"

  /** A datum: a value or NULL (`None`). */
  type Datum = Option<int>

  datatype Bound<T> = Unbounded | Included(value: T) | Excluded(value: T)

  /** A bound as the plan carries it: a value and whether it is included. */
  datatype PbBound = PbBound(value: Datum, inclusive: bool)

  /** A scan range as the plan carries it: equality conditions on a prefix
      of the primary key and optional bounds on the next column. */
  datatype PbScanRange = PbScanRange(eqConds: seq<Datum>, lowerBound: Option<PbBound>, upperBound: Option<PbBound>)

  /** `ScanRange`: a primary-key prefix and the bounds of the next column. */
  datatype ScanRange = ScanRange(pkPrefix: seq<Datum>, lower: Bound<Datum>, upper: Bound<Datum>)

  /** `ScanRange::full`. */
  function FullRange(): ScanRange {
    ScanRange([], Unbounded, Unbounded)
  }

  /** `ScanRange::is_full_range`. */
  predicate IsFullRange<T>(lower: Bound<T>, upper: Bound<T>) {
    lower.Unbounded? && upper.Unbounded?
  }

  function BuildBound(b: PbBound): Bound<Datum> {
    if b.inclusive then Included(b.value) else Excluded(b.value)
  }

  /** `ScanRange::new` for a table whose primary key has `pkLen` columns:
      each equality condition and the bound column each take the next key
      type, and running out of key types is a panic. */
  function NewScanRange(pb: PbScanRange, pkLen: nat): (r: Result<ScanRange, string>)
    ensures r.Success? <==> |pb.eqConds| <= pkLen && (pb.lowerBound.Some? || pb.upperBound.Some? ==> |pb.eqConds| < pkLen)
    ensures r.Success? ==> r.value.pkPrefix == pb.eqConds
    ensures r.Success? ==> (IsFullRange(r.value.lower, r.value.upper) <==> pb.lowerBound.None? && pb.upperBound.None?)
    ensures r.Success? && pb.lowerBound.Some? ==>
      r.value.lower == (if pb.lowerBound.value.inclusive then Included(pb.lowerBound.value.value) else Excluded(pb.lowerBound.value.value))
    ensures r.Success? && pb.upperBound.Some? ==>
      r.value.upper == (if pb.upperBound.value.inclusive then Included(pb.upperBound.value.value) else Excluded(pb.upperBound.value.value))
    ensures r.Success? ==> (pb.lowerBound.None? ==> r.value.lower.Unbounded?) && (pb.upperBound.None? ==> r.value.upper.Unbounded?)
  {
    if |pb.eqConds| > pkLen then Failure(NO_EQ_COLUMN)
    else if pb.lowerBound.None? && pb.upperBound.None? then Success(FullRange().(pkPrefix := pb.eqConds))
    else if |pb.eqConds| == pkLen then Failure(NO_BOUND_COLUMN)
    else
      var lower := if pb.lowerBound.Some? then BuildBound(pb.lowerBound.value) else Unbounded;
      var upper := if pb.upperBound.Some? then BuildBound(pb.upperBound.value) else Unbounded;
      Success(ScanRange(pb.eqConds, lower, upper))
  }

  /** The scan ranges of the plan, each built in turn; the first failure
      is the result. */
  function NewScanRanges(pbs: seq<PbScanRange>, pkLen: nat): (r: Result<seq<ScanRange>, string>)
    ensures r.Success? ==> |r.value| == |pbs| && forall i | 0 <= i < |pbs| :: NewScanRange(pbs[i], pkLen) == Success(r.value[i])
    ensures r.Failure? <==> exists i | 0 <= i < |pbs| :: NewScanRange(pbs[i], pkLen).Failure?
    decreases |pbs|
  {
    if pbs == [] then Success([])
    else
      var first := NewScanRange(pbs[0], pkLen);
      var rest := NewScanRanges(pbs[1..], pkLen);
      if first.Failure? then Failure(first.error)
      else if rest.Failure? then Failure(rest.error)
      else
        assert forall i | 1 <= i < |pbs| :: pbs[i] == pbs[1..][i - 1];
        Success([first.value] + rest.value)
  }

  /** The executor builder's scan ranges: no range in the plan means one
      full-table range. */
  function PlanScanRanges(pbs: seq<PbScanRange>, pkLen: nat): (r: Result<seq<ScanRange>, string>)
    ensures pbs == [] ==> r == Success([FullRange()])
    ensures pbs != [] ==> r == NewScanRanges(pbs, pkLen)
  {
    if pbs == [] then Success([FullRange()]) else NewScanRanges(pbs, pkLen)
  }

  // ---------------------------------------------------------------------
  // Point gets and range scans

  /** The ranges whose prefix covers the whole primary key: point gets. */
  function PointGets(rs: seq<ScanRange>, pkLen: nat): seq<ScanRange>
    decreases |rs|
  {
    if rs == [] then [] else (if |rs[0].pkPrefix| == pkLen then [rs[0]] else []) + PointGets(rs[1..], pkLen)
  }

  /** The other ranges: range scans. */
  function RangeScans(rs: seq<ScanRange>, pkLen: nat): seq<ScanRange>
    decreases |rs|
  {
    if rs == [] then [] else (if |rs[0].pkPrefix| == pkLen then [] else [rs[0]]) + RangeScans(rs[1..], pkLen)
  }

  /** The partition loses and duplicates no range and sorts each by whether
      its prefix is the whole key. */
  lemma {:induction false} PartitionSpec(rs: seq<ScanRange>, pkLen: nat)
    ensures multiset(PointGets(rs, pkLen)) + multiset(RangeScans(rs, pkLen)) == multiset(rs)
    ensures forall r | r in PointGets(rs, pkLen) :: |r.pkPrefix| == pkLen
    ensures forall r | r in RangeScans(rs, pkLen) :: |r.pkPrefix| != pkLen
    decreases |rs|
  {
    if rs != [] {
      PartitionSpec(rs[1..], pkLen);
      assert rs == [rs[0]] + rs[1..];
    }
  }

  // ---------------------------------------------------------------------
  // Bounds of a range scan

  /** The order of a key column: direction and where NULLs sort. */
  datatype OrderType = OrderType(ascending: bool, nullsFirst: bool)

  predicate NullsAreLast(o: OrderType) {
    !o.nullsFirst
  }

  function ToRow(b: Bound<Datum>): Bound<seq<Datum>> {
    match b
    case Unbounded => Unbounded
    case Included(x) => Included([x])
    case Excluded(x) => Excluded([x])
  }

  /** The bounds handed to storage by `execute_range`: the range's own
      bounds in key order (swapped for a descending column); both sides open
      stay open; a bounded side keeps its kind and value; an open side facing
      a bounded one excludes NULL exactly when NULLs sort on that side. A
      prefix as long as the key is a panic. */
  function RangeBounds(r: ScanRange, orderTypes: seq<OrderType>, pkLen: nat): (res: Result<(Bound<seq<Datum>>, Bound<seq<Datum>>), string>)
    ensures res.Failure? <==> |r.pkPrefix| >= |orderTypes| || |r.pkPrefix| >= pkLen
    ensures res.Success? ==>
      var o := orderTypes[|r.pkPrefix|];
      var start := if o.ascending then r.lower else r.upper;
      var end := if o.ascending then r.upper else r.lower;
      && (IsFullRange(r.lower, r.upper) ==> IsFullRange(res.value.0, res.value.1))
      && (!start.Unbounded? ==> res.value.0 == ToRow(start) && res.value.0.value == [start.value])
      && (!end.Unbounded? ==> res.value.1 == ToRow(end) && res.value.1.value == [end.value])
      && (start.Unbounded? && !end.Unbounded? ==> (res.value.0 == Excluded([None]) <==> o.nullsFirst))
      && (end.Unbounded? && !start.Unbounded? ==> (res.value.1 == Excluded([None]) <==> !o.nullsFirst))
      && (start.Unbounded? ==> res.value.0.Unbounded? || res.value.0 == Excluded([None]))
      && (end.Unbounded? ==> res.value.1.Unbounded? || res.value.1 == Excluded([None]))
  {
    if |r.pkPrefix| >= |orderTypes| || |r.pkPrefix| >= pkLen then Failure(PREFIX_TOO_LONG)
    else
      var o := orderTypes[|r.pkPrefix|];
      var (start, end) := if o.ascending then (r.lower, r.upper) else (r.upper, r.lower);
      var s := if start.Unbounded? then (if !end.Unbounded? && o.nullsFirst then Excluded([None]) else Unbounded) else ToRow(start);
      var e := if end.Unbounded? then (if !start.Unbounded? && NullsAreLast(o) then Excluded([None]) else Unbounded) else ToRow(end);
      Success((s, e))
  }

  // ---------------------------------------------------------------------
  // Chunk size

  const U32_MODULUS: nat := 0x1_0000_0000

  /** The executor's chunk size as written: the limit and the configured
      size are both cast to 32 bits before taking the smaller. */
  function ChunkSizeAsWritten(limit: Option<nat>, configured: nat): (r: nat)
    ensures r < U32_MODULUS
    ensures r <= configured
    ensures limit.Some? && limit.value % U32_MODULUS == 0 ==> r == 0
  {
    if limit.Some? then
      var l := limit.value % U32_MODULUS;
      var c := configured % U32_MODULUS;
      if l < c then l else c
    else configured % U32_MODULUS
  }

  /** A limit of 2^32 rows gives chunks of no row. */
  lemma ChunkSizeAsWrittenTruncates()
    ensures ChunkSizeAsWritten(Some(U32_MODULUS), 1024) == 0
  {
  }

  /** The chunk size as intended: the smaller of the limit and the
      configured size. It never exceeds either, is positive when both are,
      and agrees with the code as written whenever both fit in 32 bits. */
  function ChunkSize(limit: Option<nat>, configured: nat): (r: nat)
    ensures r <= configured
    ensures limit.Some? ==> r <= limit.value
    ensures r == configured || (limit.Some? && r == limit.value)
    ensures configured > 0 && (limit.None? || limit.value > 0) ==> r > 0
    ensures (limit.None? || limit.value < U32_MODULUS) && configured < U32_MODULUS ==>
      r == ChunkSizeAsWritten(limit, configured)
  {
    if limit.Some? && limit.value < configured then limit.value else configured
  }

  // ---------------------------------------------------------------------
  // Execution

  /** The chunks the chunk builder hands out while the point gets' rows are
      appended one by one (`found[i]`: the i-th point get found its row),
      starting with `buffered` rows held: a chunk each time `chunkSize` rows
      are held, and what is left when the point gets are done. */
  function PointGetChunks(found: seq<bool>, buffered: nat, chunkSize: nat): seq<nat>
    decreases |found|
  {
    if found == [] then (if buffered > 0 then [buffered] else [])
    else if !found[0] then PointGetChunks(found[1..], buffered, chunkSize)
    else if buffered + 1 == chunkSize then [chunkSize] + PointGetChunks(found[1..], 0, chunkSize)
    else PointGetChunks(found[1..], buffered + 1, chunkSize)
  }

  function Sum(s: seq<nat>): nat
    decreases |s|
  {
    if s == [] then 0 else s[0] + Sum(s[1..])
  }

  function CountFound(found: seq<bool>): nat
    decreases |found|
  {
    if found == [] then 0 else (if found[0] then 1 else 0) + CountFound(found[1..])
  }

  /** The point gets' chunks carry every row found, each chunk but the last
      is full, and none is empty. */
  lemma {:induction false} PointGetChunksSpec(found: seq<bool>, buffered: nat, chunkSize: nat)
    requires buffered < chunkSize
    ensures var cs := PointGetChunks(found, buffered, chunkSize);
      && Sum(cs) == buffered + CountFound(found)
      && (forall i | 0 <= i < |cs| :: 0 < cs[i] <= chunkSize)
      && (forall i | 0 <= i < |cs| - 1 :: cs[i] == chunkSize)
    decreases |found|
  {
    if found != [] {
      if !found[0] {
        PointGetChunksSpec(found[1..], buffered, chunkSize);
      } else if buffered + 1 == chunkSize {
        PointGetChunksSpec(found[1..], 0, chunkSize);
        var rest := PointGetChunks(found[1..], 0, chunkSize);
        assert ([chunkSize] + rest)[1..] == rest;
      } else {
        PointGetChunksSpec(found[1..], buffered + 1, chunkSize);
      }
    }
  }

  /** The chunks yielded from `chunks` with `returned` rows already out:
      each is yielded, and the first to bring the count to the limit is the
      last. */
  function TakeUntilLimit(chunks: seq<nat>, returned: nat, limit: Option<nat>): seq<nat>
    decreases |chunks|
  {
    if chunks == [] then []
    else if limit.Some? && returned + chunks[0] >= limit.value then [chunks[0]]
    else [chunks[0]] + TakeUntilLimit(chunks[1..], returned + chunks[0], limit)
  }

  /** The output is a prefix of the chunks; before its last chunk the count
      stays below the limit; and it stops early only once the limit is
      reached. */
  lemma {:induction false} TakeUntilLimitSpec(chunks: seq<nat>, returned: nat, limit: Option<nat>)
    requires limit.Some? ==> returned < limit.value
    ensures var out := TakeUntilLimit(chunks, returned, limit);
      && out <= chunks
      && (limit.Some? && out != [] ==> returned + Sum(out[..|out| - 1]) < limit.value)
      && (|out| < |chunks| ==> limit.Some? && returned + Sum(out) >= limit.value)
      && (limit.None? ==> out == chunks)
    decreases |chunks|
  {
    if chunks != [] {
      var out := TakeUntilLimit(chunks, returned, limit);
      if limit.Some? && returned + chunks[0] >= limit.value {
        assert out[..0] == [];
        assert out[1..] == [];
      } else {
        var rest := TakeUntilLimit(chunks[1..], returned + chunks[0], limit);
        TakeUntilLimitSpec(chunks[1..], returned + chunks[0], limit);
        assert out[1..] == rest;
        if rest != [] {
          assert out[..|out| - 1][1..] == rest[..|rest| - 1];
        } else {
          assert out[..|out| - 1] == [];
        }
      }
    }
  }

  /** One step of `TakeUntilLimit` from position `k` of the chunks. */
  lemma TakeUntilLimitStep(chunks: seq<nat>, k: nat, returned: nat, limit: Option<nat>)
    requires k < |chunks|
    ensures TakeUntilLimit(chunks[k..], returned, limit)
         == if limit.Some? && returned + chunks[k] >= limit.value then [chunks[k]]
            else [chunks[k]] + TakeUntilLimit(chunks[k + 1..], returned + chunks[k], limit)
  {
    assert chunks[k..][1..] == chunks[k + 1..];
  }

  /** One row of the point gets, from position `i`, as the chunk builder
      sees it. */
  lemma PointGetChunksStep(found: seq<bool>, i: nat, buffered: nat, chunkSize: nat)
    requires i < |found|
    ensures PointGetChunks(found[i..], buffered, chunkSize)
         == if !found[i] then PointGetChunks(found[i + 1..], buffered, chunkSize)
            else if buffered + 1 == chunkSize then [chunkSize] + PointGetChunks(found[i + 1..], 0, chunkSize)
            else PointGetChunks(found[i + 1..], buffered + 1, chunkSize)
  {
    assert found[i..][1..] == found[i + 1..];
  }

  /** What is left to yield before and after point get `i`, given whether
      the chunk it completes, if any, reaches the limit. */
  lemma PendingStep(found: seq<bool>, i: nat, buffered: nat, chunkSize: nat, rangeChunks: seq<nat>,
                    returned: nat, limit: Option<nat>)
    requires i < |found|
    ensures var before := TakeUntilLimit(PointGetChunks(found[i..], buffered, chunkSize) + rangeChunks, returned, limit);
      if found[i] && buffered + 1 == chunkSize then
        before == if limit.Some? && returned + chunkSize >= limit.value then [chunkSize]
                  else [chunkSize] + TakeUntilLimit(PointGetChunks(found[i + 1..], 0, chunkSize) + rangeChunks, returned + chunkSize, limit)
      else
        before == TakeUntilLimit(PointGetChunks(found[i + 1..], if found[i] then buffered + 1 else buffered, chunkSize) + rangeChunks, returned, limit)
  {
    PointGetChunksStep(found, i, buffered, chunkSize);
    if found[i] && buffered + 1 == chunkSize {
      var rest := PointGetChunks(found[i + 1..], 0, chunkSize) + rangeChunks;
      assert PointGetChunks(found[i..], buffered, chunkSize) + rangeChunks == [chunkSize] + rest;
      TakeUntilLimitCons(chunkSize, rest, returned, limit);
    }
  }

  /** Yielding one chunk `c` in front of `rest`. */
  lemma TakeUntilLimitCons(c: nat, rest: seq<nat>, returned: nat, limit: Option<nat>)
    ensures TakeUntilLimit([c] + rest, returned, limit)
         == if limit.Some? && returned + c >= limit.value then [c]
            else [c] + TakeUntilLimit(rest, returned + c, limit)
  {
    assert ([c] + rest)[1..] == rest;
  }

  /** The chunks `do_execute` yields: a zero limit yields nothing; otherwise
      the point gets' chunks then the range scans' chunks (in the order the
      merged streams deliver them), up to the limit. An ordered scan must
      have exactly one range. */
  function ScanOutput(ordered: bool, rangeCount: nat, found: seq<bool>, rangeChunks: seq<nat>,
                      limit: Option<nat>, chunkSize: nat): Result<seq<nat>, string>
  {
    if ordered && rangeCount != 1 then Failure(ORDERED_NEEDS_ONE_RANGE)
    else if limit.Some? && limit.value == 0 then Success([])
    else Success(TakeUntilLimit(PointGetChunks(found, 0, chunkSize) + rangeChunks, 0, limit))
  }

  /** `do_execute`, with what storage returns given as inputs. */
  method DoExecute(ordered: bool, rangeCount: nat, found: seq<bool>, rangeChunks: seq<nat>,
                   limit: Option<nat>, chunkSize: nat) returns (r: Result<seq<nat>, string>)
    ensures r == ScanOutput(ordered, rangeCount, found, rangeChunks, limit, chunkSize)
  {
    if ordered && rangeCount != 1 {
      return Failure(ORDERED_NEEDS_ONE_RANGE);
    }
    var returned: nat := 0;
    if limit.Some? && returned >= limit.value {
      return Success([]);
    }
    var out, stopped;
    out, returned, stopped := YieldPointGets(found, rangeChunks, limit, chunkSize);
    if stopped {
      return Success(out);
    }
    out := YieldRangeScans(out, returned, rangeChunks, limit);
    r := Success(out);
  }

  /** The point-get half of `do_execute`: rows go through the chunk builder,
      and what it holds at the end is handed out too. Either the limit was
      reached, or what is left to yield is the range scans' chunks. */
  method YieldPointGets(found: seq<bool>, rangeChunks: seq<nat>, limit: Option<nat>, chunkSize: nat)
    returns (out: seq<nat>, returned: nat, stopped: bool)
    requires limit.Some? ==> limit.value > 0
    ensures stopped ==> out == TakeUntilLimit(PointGetChunks(found, 0, chunkSize) + rangeChunks, 0, limit)
    ensures !stopped ==> out + TakeUntilLimit(rangeChunks, returned, limit)
                         == TakeUntilLimit(PointGetChunks(found, 0, chunkSize) + rangeChunks, 0, limit)
    ensures !stopped && limit.Some? ==> returned < limit.value
  {
    ghost var spec := TakeUntilLimit(PointGetChunks(found, 0, chunkSize) + rangeChunks, 0, limit);
    out, returned, stopped := [], 0, false;
    var buffered: nat := 0;
    var i := 0;
    assert found[0..] == found;
    while i < |found|
      invariant 0 <= i <= |found|
      invariant out + Pending(found, i, buffered, chunkSize, rangeChunks, returned, limit) == spec
      invariant limit.Some? ==> returned < limit.value
    {
      out, returned, buffered, stopped := PointGet(found, i, buffered, chunkSize, rangeChunks, out, returned, limit);
      if stopped {
        return;
      }
      i := i + 1;
    }
    assert found[i..] == [];
    assert out + TakeUntilLimit(PointGetChunks([], buffered, chunkSize) + rangeChunks, returned, limit) == spec;
    out, returned, stopped := FlushBuilder(out, returned, buffered, chunkSize, rangeChunks, limit);
  }

  /** What is left to yield from point get `i` on, with `buffered` rows in
      the chunk builder and `returned` rows already out. */
  function Pending(found: seq<bool>, i: nat, buffered: nat, chunkSize: nat, rangeChunks: seq<nat>,
                   returned: nat, limit: Option<nat>): seq<nat>
    requires i <= |found|
  {
    TakeUntilLimit(PointGetChunks(found[i..], buffered, chunkSize) + rangeChunks, returned, limit)
  }

  /** One point get: a found row goes into the chunk builder, and a chunk it
      completes is yielded, which stops the scan if it reaches the limit. */
  method PointGet(found: seq<bool>, i: nat, buffered0: nat, chunkSize: nat, rangeChunks: seq<nat>,
                  out0: seq<nat>, returned0: nat, limit: Option<nat>)
    returns (out: seq<nat>, returned: nat, buffered: nat, stopped: bool)
    requires i < |found|
    requires limit.Some? ==> returned0 < limit.value
    ensures stopped ==> out == out0 + Pending(found, i, buffered0, chunkSize, rangeChunks, returned0, limit)
    ensures !stopped ==> out + Pending(found, i + 1, buffered, chunkSize, rangeChunks, returned, limit)
                         == out0 + Pending(found, i, buffered0, chunkSize, rangeChunks, returned0, limit)
    ensures !stopped && limit.Some? ==> returned < limit.value
  {
    PendingStep(found, i, buffered0, chunkSize, rangeChunks, returned0, limit);
    out, returned, buffered, stopped := out0, returned0, buffered0, false;
    if found[i] {
      if buffered0 + 1 == chunkSize {
        ghost var later := Pending(found, i + 1, 0, chunkSize, rangeChunks, returned0 + chunkSize, limit);
        out := out0 + [chunkSize];
        if limit.Some? && returned0 + chunkSize >= limit.value {
          return out, returned0 + chunkSize, 0, true;
        }
        assert out + later == out0 + ([chunkSize] + later);
        returned := returned0 + chunkSize;
        buffered := 0;
      } else {
        buffered := buffered0 + 1;
      }
    }
  }

  /** The chunk builder's `consume_all` after the last point get: the rows
      it still holds, if any, are yielded as one chunk. */
  method FlushBuilder(out0: seq<nat>, returned0: nat, buffered: nat, chunkSize: nat, rangeChunks: seq<nat>, limit: Option<nat>)
    returns (out: seq<nat>, returned: nat, stopped: bool)
    requires limit.Some? ==> returned0 < limit.value
    ensures var spec := out0 + TakeUntilLimit(PointGetChunks([], buffered, chunkSize) + rangeChunks, returned0, limit);
      && (stopped ==> out == spec)
      && (!stopped ==> out + TakeUntilLimit(rangeChunks, returned, limit) == spec)
      && (!stopped && limit.Some? ==> returned < limit.value)
  {
    out, returned, stopped := out0, returned0, false;
    if buffered > 0 {
      assert PointGetChunks([], buffered, chunkSize) + rangeChunks == [buffered] + rangeChunks;
      TakeUntilLimitCons(buffered, rangeChunks, returned, limit);
      out := out + [buffered];
      returned := returned + buffered;
      if limit.Some? && returned >= limit.value {
        stopped := true;
      }
    } else {
      assert PointGetChunks([], buffered, chunkSize) + rangeChunks == rangeChunks;
    }
  }

  /** The range-scan half of `do_execute`: each chunk is yielded until the
      limit is reached. */
  method YieldRangeScans(out0: seq<nat>, returned0: nat, rangeChunks: seq<nat>, limit: Option<nat>)
    returns (out: seq<nat>)
    requires limit.Some? ==> returned0 < limit.value
    ensures out == out0 + TakeUntilLimit(rangeChunks, returned0, limit)
  {
    out := out0;
    var returned: nat := returned0;
    var k := 0;
    assert rangeChunks[0..] == rangeChunks;
    while k < |rangeChunks|
      invariant 0 <= k <= |rangeChunks|
      invariant out + TakeUntilLimit(rangeChunks[k..], returned, limit) == out0 + TakeUntilLimit(rangeChunks, returned0, limit)
      invariant limit.Some? ==> returned < limit.value
    {
      TakeUntilLimitStep(rangeChunks, k, returned, limit);
      out := out + [rangeChunks[k]];
      returned := returned + rangeChunks[k];
      if limit.Some? && returned >= limit.value {
        return out;
      }
      k := k + 1;
    }
    assert rangeChunks[k..] == [];
  }
}
