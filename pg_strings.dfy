/** The two string helpers of the Postgres wire protocol front end: reading
    a C string out of a message, and the formatter that truncates what the
    query log prints. Strings are byte sequences (UTF-8). */
module PgProtocolStrings {
  import opened Wrappers

  type Bytes = seq<bv8>

  /** `cstr_to_str` without its UTF-8 check: exactly one trailing zero byte,
      if there is one, is dropped. */
  function StripNul(b: Bytes): (r: Bytes)
    ensures r <= b
    ensures |r| == |b| - 1 <==> |b| > 0 && b[|b| - 1] == 0
    ensures |r| >= |b| - 1
  {
    if |b| > 0 && b[|b| - 1] == 0 then b[..|b| - 1] else b
  }

  /** Terminating a string with NUL and reading it back gives the string,
      even when the string itself ends in a zero byte. */
  lemma StripNulRoundTrip(s: Bytes)
    ensures StripNul(s + [0]) == s
  {
    assert (s + [0])[..|s|] == s;
  }

  /** What the truncating formatter appends once it runs out of budget:
      the ASCII bytes of `...(truncated)`. */
  const TRUNCATED_MARKER: Bytes :=
    [0x2E, 0x2E, 0x2E, 0x28, 0x74, 0x72, 0x75, 0x6E, 0x63, 0x61, 0x74, 0x65, 0x64, 0x29]

  /** `str::is_char_boundary`: the ends of the string, and any position not
      inside a multi-byte character (a UTF-8 continuation byte is
      `0b10xx_xxxx`). */
  predicate IsCharBoundary(s: Bytes, i: nat) {
    i == 0 || i == |s| || (i < |s| && !(0x80 <= s[i] < 0xC0))
  }

  /** The formatter's fields and what it has written to the underlying
      formatter so far. */
  datatype FmtState = FmtState(remaining: nat, finished: bool, written: Bytes)

  /** `TruncatedFormatter::write_str` as written. Slicing a `str` at a
      position inside a character panics. */
  function WriteStep(st: FmtState, s: Bytes): Result<FmtState, string> {
    if st.finished then Success(st)
    else if st.remaining < |s| then
      if !IsCharBoundary(s, st.remaining) then Failure("byte index is not a char boundary")
      else Success(FmtState(0, true, st.written + s[..st.remaining] + TRUNCATED_MARKER))
    else Success(FmtState(st.remaining - |s|, false, st.written + s))
  }

  /** Writing several pieces in turn; the first panic ends it. */
  function WriteAll(st: FmtState, pieces: seq<Bytes>): Result<FmtState, string>
    decreases |pieces|
  {
    if pieces == [] then Success(st)
    else
      var next := WriteStep(st, pieces[0]);
      if next.Failure? then next else WriteAll(next.value, pieces[1..])
  }

  function Concat(pieces: seq<Bytes>): Bytes
    decreases |pieces|
  {
    if pieces == [] then [] else pieces[0] + Concat(pieces[1..])
  }

  /** The text truncated to `budget` bytes: unchanged if it fits, otherwise
      its first `budget` bytes and the marker. */
  function Truncated(text: Bytes, budget: nat): (r: Bytes)
    ensures |text| <= budget ==> r == text
    ensures |text| > budget ==> |r| == budget + |TRUNCATED_MARKER| && r[..budget] == text[..budget] && r[budget..] == TRUNCATED_MARKER
  {
    if |text| <= budget then text else text[..budget] + TRUNCATED_MARKER
  }

  /** Once finished, the formatter ignores every later write. */
  lemma {:induction false} WriteAllFinished(st: FmtState, pieces: seq<Bytes>)
    requires st.finished
    ensures WriteAll(st, pieces) == Success(st)
    decreases |pieces|
  {
    if pieces != [] {
      WriteAllFinished(st, pieces[1..]);
    }
  }

  /** Whatever pieces the text is written in, a formatter that does not
      panic writes the text truncated to its budget: the marker appears at
      most once, and only when the text does not fit. */
  lemma {:induction false} WriteAllTruncates(st: FmtState, pieces: seq<Bytes>)
    requires !st.finished
    ensures WriteAll(st, pieces).Success? ==>
      WriteAll(st, pieces).value.written == st.written + Truncated(Concat(pieces), st.remaining)
    decreases |pieces|
  {
    if pieces != [] {
      var s := pieces[0];
      var rest := Concat(pieces[1..]);
      var next := WriteStep(st, s);
      if next.Success? {
        if st.remaining < |s| {
          WriteAllFinished(next.value, pieces[1..]);
          assert (s + rest)[..st.remaining] == s[..st.remaining];
        } else {
          WriteAllTruncates(next.value, pieces[1..]);
          if |s + rest| > st.remaining {
            assert (s + rest)[..st.remaining] == s + rest[..st.remaining - |s|];
          }
        }
      }
    }
  }

  /** `TruncatedFmt::fmt` for text written in one piece, as written: it
      panics exactly when the text does not fit and the budget falls
      inside a character. */
  lemma FormatOnePieceAsWritten(text: Bytes, budget: nat)
    ensures WriteAll(FmtState(budget, false, []), [text]).Failure?
        <==> budget < |text| && !IsCharBoundary(text, budget)
    ensures WriteAll(FmtState(budget, false, []), [text]).Success? ==>
      WriteAll(FmtState(budget, false, []), [text]).value.written == Truncated(text, budget)
  {
    WriteAllTruncates(FmtState(budget, false, []), [text]);
    assert Concat([text]) == text + Concat([]);
  }

  /** A 1-byte budget on the two-byte text "é" panics instead of
      truncating. */
  lemma TruncatingInsideCharacterPanics()
    ensures WriteAll(FmtState(1, false, []), [[0xC3, 0xA9]]).Failure?
  {
    FormatOnePieceAsWritten([0xC3, 0xA9], 1);
  }

  /** `str::floor_char_boundary`: the last character boundary at or before
      `i`. */
  function FloorCharBoundary(s: Bytes, i: nat): (r: nat)
    ensures r <= i && r <= |s| && IsCharBoundary(s, r)
    ensures forall j | r < j <= i :: !IsCharBoundary(s, j)
    ensures IsCharBoundary(s, i) ==> r == i
  {
    if i >= |s| then |s|
    else if IsCharBoundary(s, i) then i
    else FloorCharBoundary(s, i - 1)
  }

  /** `write_str` as evidently intended: the text is cut at the last
      character boundary within the budget, so it never panics. */
  function WriteStrFloor(st: FmtState, s: Bytes): FmtState {
    if st.finished then st
    else if st.remaining < |s| then
      FmtState(0, true, st.written + s[..FloorCharBoundary(s, st.remaining)] + TRUNCATED_MARKER)
    else FmtState(st.remaining - |s|, false, st.written + s)
  }

  /** The corrected write agrees with the written one whenever that one
      does not panic, and otherwise keeps the longest whole-character
      prefix within the budget. */
  lemma WriteStrFloorSpec(st: FmtState, s: Bytes)
    ensures WriteStep(st, s).Success? ==> WriteStep(st, s).value == WriteStrFloor(st, s)
    ensures !st.finished && st.remaining < |s| ==>
      exists k: nat | k <= st.remaining && IsCharBoundary(s, k) ::
        && WriteStrFloor(st, s).written == st.written + s[..k] + TRUNCATED_MARKER
        && forall j | k < j <= st.remaining :: !IsCharBoundary(s, j)
  {
    if !st.finished && st.remaining < |s| {
      var k := FloorCharBoundary(s, st.remaining);
      assert WriteStrFloor(st, s).written == st.written + s[..k] + TRUNCATED_MARKER;
    }
  }

  /** `TruncatedFormatter`: what is left of the budget, whether the marker
      has been written, and the underlying formatter's output. */
  class TruncatedFormatter {
    var remaining: nat
    var finished: bool
    var written: Bytes

    function State(): FmtState
      reads this
    {
      FmtState(remaining, finished, written)
    }

    /** The formatter `TruncatedFmt::fmt` starts with. */
    constructor (budget: nat)
      ensures State() == FmtState(budget, false, [])
    {
      remaining, finished, written := budget, false, [];
    }

    /** `write_str`, as written. */
    method WriteStr(s: Bytes) returns (r: Result<(), string>)
      modifies this
      ensures WriteStep(old(State()), s).Failure? <==> r.Failure?
      ensures r.Success? ==> State() == WriteStep(old(State()), s).value
    {
      if finished {
        return Success(());
      }
      if remaining < |s| {
        if !IsCharBoundary(s, remaining) {
          return Failure("byte index is not a char boundary");
        }
        written := written + s[..remaining];
        remaining := 0;
        written := written + TRUNCATED_MARKER;
        finished := true;
      } else {
        written := written + s;
        remaining := remaining - |s|;
      }
      r := Success(());
    }
  }

  /** `TruncatedFmt::fmt`: a fresh formatter with the budget, the text's
      pieces written in turn. */
  method FormatTruncated(pieces: seq<Bytes>, budget: nat) returns (r: Result<Bytes, string>)
    ensures r.Failure? <==> WriteAll(FmtState(budget, false, []), pieces).Failure?
    ensures r.Success? ==> r.value == Truncated(Concat(pieces), budget)
  {
    var f := new TruncatedFormatter(budget);
    var i := 0;
    assert pieces[0..] == pieces;
    while i < |pieces|
      invariant 0 <= i <= |pieces|
      invariant WriteAll(f.State(), pieces[i..]) == WriteAll(FmtState(budget, false, []), pieces)
    {
      assert pieces[i..][1..] == pieces[i + 1..];
      var w := f.WriteStr(pieces[i]);
      if w.Failure? {
        return Failure(w.error);
      }
      i := i + 1;
    }
    assert pieces[i..] == [];
    WriteAllTruncates(FmtState(budget, false, []), pieces);
    r := Success(f.written);
  }
}
