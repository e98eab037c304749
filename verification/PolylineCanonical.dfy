/** Which strings are the encoding of the path they decode to: the decoder accepts
    others, and this is exactly which. */
module PolylineCanonical {
  import opened Wrappers
  import opened Geo
  import opened Polyline

  /** At most six characters, and no zero chunk after another. */
  predicate IsMinimal(e: seq<int>)
  {
    0 < |e| <= 6 && (|e| == 1 || e[|e| - 1] != 63)
  }

  /** Six characters in a row say that more follow. */
  predicate SixContinue(s: seq<int>, i: nat)
  {
    i + 6 <= |s| && forall k :: i <= k < i + 6 ==> s[k] >= CONTINUES
  }

  /** On the string alone: no zero chunk straight after a continuation, and never six
      continuations in a row. */
  ghost predicate Canonical(s: seq<int>)
  {
    && (forall i :: 0 < i < |s| && s[i] == 63 ==> s[i - 1] < CONTINUES)
    && forall i: nat :: i < |s| ==> !SixContinue(s, i)
  }

  /** A string is canonical exactly when its first value is minimal and the rest canonical. */
  lemma CanonicalSplits(e: seq<int>, rest: seq<int>)
    requires IsValue(e)
    ensures Canonical(e + rest) <==> IsMinimal(e) && Canonical(rest)
  {
    if Canonical(e + rest) {
      CanonicalFirst(e, rest);
      CanonicalRest(e, rest);
    }
    if IsMinimal(e) && Canonical(rest) { CanonicalJoins(e, rest); }
  }

  lemma CanonicalFirst(e: seq<int>, rest: seq<int>)
    requires IsValue(e) && Canonical(e + rest)
    ensures IsMinimal(e)
  {
    var s, n := e + rest, |e|;
    assert forall k {:trigger s[k]} :: 0 <= k < n ==> s[k] == e[k];
    if n > 1 { assert s[n - 2] >= CONTINUES && s[n - 1] == e[n - 1]; }
    assert !SixContinue(s, 0);
  }

  lemma CanonicalRest(e: seq<int>, rest: seq<int>)
    requires Canonical(e + rest)
    ensures Canonical(rest)
  {
    var s, n := e + rest, |e|;
    forall i | 0 < i < |rest| && rest[i] == 63 ensures rest[i - 1] < CONTINUES {
      assert s[n + i] == rest[i] && s[n + i - 1] == rest[i - 1];
    }
    forall i: nat | i < |rest| ensures !SixContinue(rest, i) {
      assert !SixContinue(s, n + i);
      assert forall k {:trigger rest[k]} :: 0 <= k < |rest| ==> rest[k] == s[n + k];
      if i + 6 <= |rest| {
        var k :| n + i <= k < n + i + 6 && s[k] < CONTINUES;
        assert rest[k - n] == s[k];
      }
    }
  }

  lemma CanonicalJoins(e: seq<int>, rest: seq<int>)
    requires IsValue(e) && IsMinimal(e) && Canonical(rest)
    ensures Canonical(e + rest)
  {
    var s, n := e + rest, |e|;
    assert s[n - 1] == e[n - 1];
    forall i | 0 < i < |s| && s[i] == 63 ensures s[i - 1] < CONTINUES {
      if i > n { assert rest[i - n] == s[i] && rest[i - n - 1] == s[i - 1]; }
    }
    forall i: nat | i < |s| ensures !SixContinue(s, i) {
      if n <= i && i + 6 <= |s| {
        assert !SixContinue(rest, i - n);
        var k :| i - n <= k < i - n + 6 && rest[k] < CONTINUES;
        assert s[k + n] == rest[k];
      }
    }
  }

  lemma EncodeMore(low: int, more: int)
    requires 0 <= low < 0x20 && more > 0
    ensures EncodeValue(low + 0x20 * more) == [low + CONTINUES] + EncodeValue(more)
  {
  }

  lemma {:induction false} MinimalIsEncoded(s: seq<int>, i: nat, next: nat)
    requires IsValueAt(s, i, next) && (next == i + 1 || s[next - 1] != 63)
    ensures EncodeValue(ChunkValue(s, i, next)) == s[i..next]
    ensures s[next - 1] != 63 ==> ChunkValue(s, i, next) > 0
    decreases next - i
  {
    if next > i + 1 {
      MinimalIsEncoded(s, i + 1, next);
      EncodeMore(s[i] - CONTINUES, ChunkValue(s, i + 1, next));
      assert s[i..next] == [s[i]] + s[i + 1..next];
    }
  }

  lemma {:induction false} ChunkValueFits(s: seq<int>, i: nat, next: nat)
    requires IsValueAt(s, i, next)
    ensures ChunkValue(s, i, next) < Weight(next - i)
    decreases next - i
  {
    if next > i + 1 { ChunkValueFits(s, i + 1, next); }
  }

  /** What the decoder accepts has the shape of a value. */
  lemma {:induction false} DecodedIsValue(encoded: seq<int>, index: nat, j: nat, result: int)
    requires index <= |encoded| && DecodeChunks(encoded, index, j, result).Ok?
    ensures IsValue(encoded[index..DecodeChunks(encoded, index, j, result).value.1])
    decreases |encoded| - index
  {
    var byte := encoded[index] - 63;
    if byte >= 0x20 {
      var next := DecodeChunks(encoded, index, j, result).value.1;
      DecodedIsValue(encoded, index + 1, j + 1, Merge(result, byte, j));
      assert encoded[index..next] == [encoded[index]] + encoded[index + 1..next];
    }
  }

  /** The next n characters exist and say that more follow. */
  ghost predicate Continuing(s: seq<int>, i: nat, n: nat)
  {
    i + n <= |s| && forall k :: i <= k < i + n ==> 95 <= s[k] <= 126
  }

  /** A value ends n characters on. */
  ghost predicate EndsAfter(s: seq<int>, i: nat, n: nat)
  {
    Continuing(s, i, n) && i + n < |s| && 63 <= s[i + n] < 95
  }

  /** From its (j + 1)-th character a value decodes exactly when at most seven in all lead
      to a final one, and is read just to it; it is truncated exactly when the string ends
      before its eighth without one; everything else is invalid. */
  lemma {:induction false} ValueDecodesExactly(s: seq<int>, i: nat, j: nat, result: int) returns (n: nat)
    requires i <= |s| && j <= 7
    ensures var r := DecodeChunks(s, i, j, result);
      && (r.Ok? <==> j + n <= 6 && EndsAfter(s, i, n)) && (r.Ok? ==> r.value.1 == i + n + 1)
      && (r == Err(TruncatedPolyline) <==> j + (|s| - i) <= 7 && Continuing(s, i, |s| - i))
      && r != Err(InvalidCoordinates)
    ensures forall m :: j + m <= 6 && EndsAfter(s, i, m) ==> m == n
    decreases |s| - i
  {
    n := 0;
    if i < |s| && 95 <= s[i] <= 126 && j < 7 {
      var m := ValueDecodesExactly(s, i + 1, j + 1, Merge(result, s[i] - 63, j));
      n := m + 1;
      assert forall l :: l > 0 ==> (EndsAfter(s, i, l) <==> EndsAfter(s, i + 1, l - 1));
    }
  }

  /** How many characters are final ones. */
  ghost function Finals(s: seq<int>): nat
  {
    if s == [] then 0 else (if s[0] < 95 then 1 else 0) + Finals(s[1..])
  }

  lemma {:induction false} FinalsAdd(s: seq<int>, t: seq<int>)
    ensures Finals(s + t) == Finals(s) + Finals(t)
    decreases |s|
  {
    if s == [] { assert s + t == t; }
    else {
      assert (s + t)[1..] == s[1..] + t;
      FinalsAdd(s[1..], t);
    }
  }

  lemma {:induction false} ValueHasOneFinal(e: seq<int>)
    requires IsValue(e)
    ensures Finals(e) == 1
    decreases |e|
  {
    if |e| > 1 {
      assert forall k :: 0 <= k < |e| - 1 ==> e[1..][k] == e[k + 1];
      ValueHasOneFinal(e[1..]);
    }
  }

  /** A path that decodes has one point for every two final characters: no character is
      skipped, and none left over. */
  lemma {:induction false} PointsPerFinals(encoded: seq<int>, index: nat, prev: Units)
    requires index <= |encoded| && DecodeFrom(encoded, index, prev).Ok?
    ensures Finals(encoded[index..]) == 2 * |DecodeFrom(encoded, index, prev).value|
    ensures forall i :: 0 <= i < |DecodeFrom(encoded, index, prev).value| ==>
      InRange(FromUnits(DecodeFrom(encoded, index, prev).value[i]))
    decreases |encoded| - index
  {
    if index < |encoded| {
      var middle := DecodeChunks(encoded, index, 0, 0).value.1;
      var (u, next) := DecodePoint(encoded, index, prev).value;
      DecodedIsValue(encoded, index, 0, 0);
      DecodedIsValue(encoded, middle, 0, 0);
      ValueHasOneFinal(encoded[index..middle]);
      ValueHasOneFinal(encoded[middle..next]);
      SuffixSplits(encoded, index, middle);
      SuffixSplits(encoded, middle, next);
      FinalsAdd(encoded[index..middle], encoded[middle..]);
      FinalsAdd(encoded[middle..next], encoded[next..]);
      PointsPerFinals(encoded, next, u);
    }
  }

  /** What `Decode` accepts is used up, and every point it gives is in range. */
  lemma DecodingUsesEveryCharacter(encoded: seq<int>)
    requires Decode(encoded).Ok?
    ensures Finals(encoded) == 2 * |Decode(encoded).value| && AllInRange(Decode(encoded).value)
  {
    PointsPerFinals(encoded, 0, ORIGIN);
    assert encoded[0..] == encoded;
  }

  predicate Small(delta: int)
  {
    -0x2000_0000 < delta < 0x2000_0000
  }

  lemma UnZigZagRoundTrip(v: nat)
    requires v < 0x4000_0000
    ensures ZigZag(UnZigZag(v)) == v
  {
  }

  lemma MinimalDecodes(s: seq<int>, i: nat, next: nat)
    requires IsValueAt(s, i, next) && next - i <= 6 && (next == i + 1 || s[next - 1] != 63)
    ensures DecodeChunks(s, i, 0, 0) == Ok((UnZigZag(ChunkValue(s, i, next)), next))
    ensures EncodeValue(ZigZag(UnZigZag(ChunkValue(s, i, next)))) == s[i..next]
  {
    var v := ChunkValue(s, i, next);
    WordWeight();
    ChunkValueFits(s, i, next);
    WeightGrows(next - i, 6);
    SumIsValue(s, i, next, 0);
    assert v * Weight(0) == v;
    DecodesChunkSum(s, i, next, 0, 0);
    UnZigZagRoundTrip(v);
    MinimalIsEncoded(s, i, next);
  }

  lemma SmallIsMinimal(delta: int)
    requires Small(delta)
    ensures IsValue(EncodeValue(ZigZag(delta))) && IsMinimal(EncodeValue(ZigZag(delta)))
  {
    WordWeight();
    EncodedIsMinimal(ZigZag(delta), 6);
  }

  /** A decoded delta of fewer than 30 bits is spelled as the encoder spells it
      exactly when its characters are minimal. */
  lemma ValueIsEncodedExactly(encoded: seq<int>, index: nat)
    requires index <= |encoded| && DecodeChunks(encoded, index, 0, 0).Ok? &&
      Small(DecodeChunks(encoded, index, 0, 0).value.0)
    ensures var (delta, next) := DecodeChunks(encoded, index, 0, 0).value;
      && IsValue(encoded[index..next]) && IsValue(EncodeValue(ZigZag(delta)))
      && (EncodeValue(ZigZag(delta)) == encoded[index..next] <==> IsMinimal(encoded[index..next]))
  {
    var (delta, next) := DecodeChunks(encoded, index, 0, 0).value;
    DecodedIsValue(encoded, index, 0, 0);
    SmallIsMinimal(delta);
    var e := encoded[index..next];
    assert forall k {:trigger encoded[k]} :: index <= k < next ==> encoded[k] == e[k - index];
    if IsMinimal(e) { MinimalDecodes(encoded, index, next); }
  }

  lemma {:induction false} WeightGrows(i: nat, j: nat)
    requires i <= j
    ensures Weight(i) <= Weight(j)
    decreases j
  {
    if i < j { WeightGrows(i, j - 1); }
  }

  /** Values are prefix-free. */
  lemma PrefixFree(d: seq<int>, e: seq<int>, r: seq<int>, q: seq<int>)
    requires IsValue(d) && IsValue(e)
    ensures d + r == e + q <==> d == e && r == q
  {
    if d + r == e + q {
      var s := d + r;
      assert forall k {:trigger s[k]} :: 0 <= k < |d| ==> s[k] == d[k];
      assert forall k {:trigger s[k]} :: 0 <= k < |e| ==> s[k] == e[k];
      assert s[|d| - 1] < CONTINUES && s[|e| - 1] < CONTINUES;
      assert |d| == |e|;
      assert d == s[..|d|] && r == s[|d|..];
      assert e == s[..|e|] && q == s[|e|..];
    }
  }

  lemma DecodedUnitsInRange(u: Units)
    requires InRange(FromUnits(u))
    ensures UnitsInRange(u)
  {
  }

  /** The two values of the point at `index` are minimal. */
  predicate PointIsMinimal(encoded: seq<int>, index: nat, prev: Units)
    requires index <= |encoded| && DecodePoint(encoded, index, prev).Ok?
  {
    var (dlat, middle) := DecodeChunks(encoded, index, 0, 0).value;
    IsMinimal(encoded[index..middle]) && IsMinimal(encoded[middle..DecodePoint(encoded, index, prev).value.1])
  }

  lemma SuffixSplits(s: seq<int>, i: nat, j: nat)
    requires i <= j <= |s|
    ensures s[i..] == s[i..j] + s[j..]
  {
  }

  /** A string goes on canonically after its first point exactly when ... */
  lemma PointIsCanonical(encoded: seq<int>, index: nat, prev: Units)
    requires index <= |encoded| && DecodePoint(encoded, index, prev).Ok?
    ensures Canonical(encoded[index..]) <==>
      PointIsMinimal(encoded, index, prev) && Canonical(encoded[DecodePoint(encoded, index, prev).value.1..])
  {
    var middle := DecodeChunks(encoded, index, 0, 0).value.1;
    var next := DecodeChunks(encoded, middle, 0, 0).value.1;
    DecodedIsValue(encoded, index, 0, 0);
    DecodedIsValue(encoded, middle, 0, 0);
    SuffixSplits(encoded, index, middle);
    SuffixSplits(encoded, middle, next);
    CanonicalSplits(encoded[index..middle], encoded[middle..]);
    CanonicalSplits(encoded[middle..next], encoded[next..]);
  }

  /** ... and starts with that point's own encoding exactly when. */
  lemma PointIsEncoded(encoded: seq<int>, index: nat, prev: Units, rest: seq<int>)
    requires index <= |encoded| && DecodePoint(encoded, index, prev).Ok? && UnitsInRange(prev)
    ensures var (u, next) := DecodePoint(encoded, index, prev).value;
      UnitsInRange(u) &&
      (EncodeStep(u, prev) + rest == encoded[index..] <==>
       PointIsMinimal(encoded, index, prev) && rest == encoded[next..])
  {
    var (dlat, middle) := DecodeChunks(encoded, index, 0, 0).value;
    var (dlng, next) := DecodeChunks(encoded, middle, 0, 0).value;
    DecodedUnitsInRange(DecodePoint(encoded, index, prev).value.0);
    ValueIsEncodedExactly(encoded, index);
    ValueIsEncodedExactly(encoded, middle);
    SuffixSplits(encoded, index, middle);
    SuffixSplits(encoded, middle, next);
    var x, y := EncodeValue(ZigZag(dlat)), EncodeValue(ZigZag(dlng));
    assert (x + y) + rest == x + (y + rest);
    PrefixFree(x, encoded[index..middle], y + rest, encoded[middle..]);
    PrefixFree(y, encoded[middle..next], rest, encoded[next..]);
  }

  lemma {:induction false} SuffixIsEncodedExactly(encoded: seq<int>, index: nat, prev: Units)
    requires index <= |encoded| && DecodeFrom(encoded, index, prev).Ok? && UnitsInRange(prev)
    ensures EncodeFrom(DecodeFrom(encoded, index, prev).value, prev) == encoded[index..] <==>
      Canonical(encoded[index..])
    decreases |encoded| - index
  {
    if index < |encoded| {
      var (u, next) := DecodePoint(encoded, index, prev).value;
      var rest := DecodeFrom(encoded, next, u).value;
      PointIsCanonical(encoded, index, prev);
      PointIsEncoded(encoded, index, prev, EncodeFrom(rest, u));
      SuffixIsEncodedExactly(encoded, next, u);
      assert ([u] + rest)[1..] == rest;
      assert DecodeFrom(encoded, index, prev).value == [u] + rest;
    }
  }

  /** Of the strings that decode, exactly the canonical ones are the encoding of what
      they decode to. */
  lemma EncodedExactlyWhenCanonical(encoded: seq<int>)
    requires Decode(encoded).Ok?
    ensures Encode(Decode(encoded).value) == encoded <==> Canonical(encoded)
  {
    var units := DecodeFrom(encoded, 0, ORIGIN).value;
    assert encoded[0..] == encoded;
    SuffixIsEncodedExactly(encoded, 0, ORIGIN);
    GridPointsAreStable(units);
  }

  /** Hence decoding is injective on canonical strings, */
  lemma CanonicalDecodingIsInjective(s: seq<int>, t: seq<int>)
    requires Decode(s).Ok? && Canonical(s) && Canonical(t)
    ensures Decode(s) == Decode(t) <==> s == t
  {
    EncodedExactlyWhenCanonical(s);
    if Decode(t).Ok? { EncodedExactlyWhenCanonical(t); }
  }

  /** ... and what the encoder writes is canonical. */
  lemma EncodingIsCanonical(points: seq<LatLng>)
    requires AllInRange(points)
    ensures Canonical(Encode(points))
  {
    RoundTrip(points);
    GridPointsAreStable(AllToUnits(points));
    EncodedExactlyWhenCanonical(Encode(points));
  }

  /** Strings that are not canonical: a padded zero, */
  lemma PaddedZeroDecodes()
    ensures DecodeChunks([63], 0, 0, 0) == Ok((0, 1)) && DecodeChunks([95, 63], 0, 0, 0) == Ok((0, 2))
  {
    ChunkStep([63], 0, 0, 0);
    ChunkStep([95, 63], 0, 0, 0);
    ChunkStep([95, 63], 1, 1, 0);
  }

  /** ... and a seventh chunk whose bits fall off the 32-bit word. */
  lemma LostBitsDecode(s: seq<int>)
    requires |s| == 7 && (forall k :: 0 <= k < 6 ==> s[k] == 95) && s[6] == 67
    ensures DecodeChunks(s, 0, 0, 0) == Ok((0, 7))
  {
    EmptyChunks(s, 6);
    WordWeight();
    ChunkStep(s, 6, 6, 0);
  }

  lemma {:induction false} EmptyChunks(s: seq<int>, j: nat)
    requires j <= 6 && |s| == 7 && forall k :: 0 <= k < 6 ==> s[k] == 95
    ensures DecodeChunks(s, 0, 0, 0) == DecodeChunks(s, j, j, 0)
  {
    if j > 0 {
      EmptyChunks(s, j - 1);
      ChunkStep(s, j - 1, j - 1, 0);
    }
  }
}
