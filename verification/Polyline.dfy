/** The encoded-polyline codec: zig-zag, base 32, delta coding. A string is a
    sequence of UTF-16 code units; bitwise operators act on signed 32-bit words. */
module Polyline {
  import opened Wrappers
  import opened Words
  import opened Geo

  datatype DecodeError = InvalidPolyline | TruncatedPolyline | InvalidCoordinates

  /** A point in units of 1e-5 degrees. */
  datatype Units = Units(lat: int, lng: int)

  const ORIGIN := Units(0, 0)

  /** `Math.round(degrees * 1e5)`: the nearest integer, halves upwards. */
  function Scaled(degrees: real): int
  {
    (degrees * 100000.0 + 0.5).Floor
  }

  function ToUnits(p: LatLng): Units
  {
    Units(Scaled(p.lat), Scaled(p.lng))
  }

  function FromUnits(u: Units): LatLng
  {
    LatLng(u.lat as real / 100000.0, u.lng as real / 100000.0)
  }

  function AllToUnits(points: seq<LatLng>): (units: seq<Units>)
    ensures |units| == |points|
    ensures forall i :: 0 <= i < |points| ==> units[i] == ToUnits(points[i])
  {
    seq(|points|, i requires 0 <= i < |points| => ToUnits(points[i]))
  }

  function AllFromUnits(units: seq<Units>): (points: seq<LatLng>)
    ensures |points| == |units|
    ensures forall i :: 0 <= i < |units| ==> points[i] == FromUnits(units[i])
  {
    seq(|units|, i requires 0 <= i < |units| => FromUnits(units[i]))
  }

  // ---------------------------------------------------------------- encoding

  /** `delta << 1`, complemented for a negative delta. */
  function ZigZag(delta: int): int
  {
    var doubled := S32(2 * delta);
    if delta < 0 then -doubled - 1 else doubled
  }

  /** `String.fromCharCode`. */
  function CodeUnit(code: int): int
  {
    code % 0x1_0000
  }

  function EncodeValue(v: int): (codes: seq<int>)
    ensures codes != []
  {
    if v >= 0x20 then [CodeUnit(0x20 + v % 0x20 + 63)] + EncodeValue(v / 0x20)
    else [CodeUnit(v + 63)]
  }

  function EncodeStep(u: Units, prev: Units): seq<int>
  {
    EncodeValue(ZigZag(u.lat - prev.lat)) + EncodeValue(ZigZag(u.lng - prev.lng))
  }

  function EncodeFrom(units: seq<Units>, prev: Units): seq<int>
  {
    if units == [] then [] else EncodeStep(units[0], prev) + EncodeFrom(units[1..], units[0])
  }

  function Encode(points: seq<LatLng>): seq<int>
  {
    EncodeFrom(AllToUnits(points), ORIGIN)
  }

  method AppendValue(encoded: seq<int>, value: int) returns (extended: seq<int>)
    ensures extended == encoded + EncodeValue(value)
  {
    var v := value;
    extended := encoded;
    while v >= 0x20
      invariant extended + EncodeValue(v) == encoded + EncodeValue(value)
      decreases v
    {
      extended := extended + [CodeUnit(0x20 + v % 0x20 + 63)];
      v := v / 0x20;
    }
    extended := extended + [CodeUnit(v + 63)];
  }

  method EncodePolyline(points: seq<LatLng>) returns (encoded: seq<int>)
    ensures encoded == Encode(points)
  {
    ghost var units := AllToUnits(points);
    encoded := [];
    var prev := ORIGIN;
    for i := 0 to |points|
      invariant encoded + EncodeFrom(units[i..], prev) == EncodeFrom(units, ORIGIN)
    {
      var u := ToUnits(points[i]);
      EncodeUnfold(encoded, units, i, prev);
      encoded := AppendPoint(encoded, u, prev);
      prev := u;
    }
  }

  /** Appends the two deltas of one point. */
  method AppendPoint(encoded: seq<int>, u: Units, prev: Units) returns (extended: seq<int>)
    ensures extended == encoded + EncodeStep(u, prev)
  {
    var dlat, dlng := u.lat - prev.lat, u.lng - prev.lng;
    extended := AppendValue(encoded, ZigZag(dlat));
    extended := AppendValue(extended, ZigZag(dlng));
  }

  lemma EncodeUnfold(encoded: seq<int>, units: seq<Units>, i: nat, prev: Units)
    requires i < |units|
    ensures encoded + EncodeFrom(units[i..], prev)
         == (encoded + EncodeStep(units[i], prev)) + EncodeFrom(units[i + 1..], units[i])
  {
  }

  // ---------------------------------------------------------------- decoding

  /** Weight of the j-th five-bit chunk. */
  function Weight(j: nat): (w: nat)
    ensures w > 0
  {
    if j == 0 then 1 else 0x20 * Weight(j - 1)
  }

  /** `result & 1 ? ~(result >> 1) : result >> 1`. */
  function UnZigZag(result: int): int
  {
    if result % 2 == 1 then -(result / 2) - 1 else result / 2
  }

  /** Merges chunk j into `result`; its bits lie above those of `result`, so the
      bitwise or is a sum. */
  function Merge(result: int, byte: int, j: nat): int
  {
    S32(result + (byte % 0x20) * Weight(j))
  }

  /** Reads chunk j at `index`; the chunks so far make `result`. */
  function DecodeChunks(encoded: seq<int>, index: nat, j: nat, result: int): (r: Result<(int, nat), DecodeError>)
    requires index <= |encoded|
    ensures r.Ok? ==> index < r.value.1 <= |encoded|
    decreases |encoded| - index
  {
    if index == |encoded| then Err(TruncatedPolyline)
    else
      var byte := encoded[index] - 63;
      if byte < 0 || byte > 63 || 5 * j > 30 then Err(InvalidPolyline)
      else if byte < 0x20 then Ok((UnZigZag(Merge(result, byte, j)), index + 1))
      else DecodeChunks(encoded, index + 1, j + 1, Merge(result, byte, j))
  }

  predicate InRange(p: LatLng)
  {
    -90.0 <= p.lat <= 90.0 && -180.0 <= p.lng <= 180.0
  }

  /** Reads the two deltas of the next point. */
  function DecodePoint(encoded: seq<int>, index: nat, prev: Units): (r: Result<(Units, nat), DecodeError>)
    requires index <= |encoded|
    ensures r.Ok? ==> index < r.value.1 <= |encoded|
  {
    match DecodeChunks(encoded, index, 0, 0)
    case Err(error) => Err(error)
    case Ok((dlat, middle)) =>
      match DecodeChunks(encoded, middle, 0, 0)
      case Err(error) => Err(error)
      case Ok((dlng, next)) =>
        var u := Units(prev.lat + dlat, prev.lng + dlng);
        if InRange(FromUnits(u)) then Ok((u, next)) else Err(InvalidCoordinates)
  }

  function DecodeFrom(encoded: seq<int>, index: nat, prev: Units): Result<seq<Units>, DecodeError>
    requires index <= |encoded|
    decreases |encoded| - index
  {
    if index == |encoded| then Ok([])
    else
      match DecodePoint(encoded, index, prev)
      case Err(error) => Err(error)
      case Ok((u, next)) => Prepend([u], DecodeFrom(encoded, next, u))
  }

  function Prepend(units: seq<Units>, rest: Result<seq<Units>, DecodeError>): Result<seq<Units>, DecodeError>
  {
    match rest
    case Err(error) => Err(error)
    case Ok(more) => Ok(units + more)
  }

  function Decode(encoded: seq<int>): Result<seq<LatLng>, DecodeError>
  {
    match DecodeFrom(encoded, 0, ORIGIN)
    case Err(error) => Err(error)
    case Ok(units) => Ok(AllFromUnits(units))
  }

  method DecodeCoordinate(encoded: seq<int>, startIndex: nat) returns (r: Result<(int, nat), DecodeError>)
    requires startIndex <= |encoded|
    ensures r == DecodeChunks(encoded, startIndex, 0, 0)
  {
    var result := 0;
    var shift := 0;
    var weight := 1;
    var index := startIndex;
    ghost var j := 0;
    while index < |encoded|
      invariant startIndex <= index <= |encoded| && shift == 5 * j && weight == Weight(j)
      invariant DecodeChunks(encoded, index, j, result) == DecodeChunks(encoded, startIndex, 0, 0)
    {
      var byte := encoded[index] - 63;
      index := index + 1;
      if byte < 0 || byte > 63 || shift > 30 { return Err(InvalidPolyline); }
      result := S32(result + (byte % 0x20) * weight);
      if byte < 0x20 { return Ok((UnZigZag(result), index)); }
      shift := shift + 5;
      weight := 0x20 * weight;
      j := j + 1;
    }
    return Err(TruncatedPolyline);
  }

  method DecodePolyline(encoded: seq<int>) returns (r: Result<seq<LatLng>, DecodeError>)
    ensures r == Decode(encoded)
  {
    if |encoded| == 0 { return Ok([]); }
    var points: seq<LatLng> := [];
    ghost var units: seq<Units> := [];
    var index := 0;
    var at := ORIGIN;
    PrependNothing(DecodeFrom(encoded, 0, ORIGIN));
    while index < |encoded|
      invariant index <= |encoded| && points == AllFromUnits(units)
      invariant Prepend(units, DecodeFrom(encoded, index, at)) == DecodeFrom(encoded, 0, ORIGIN)
      decreases |encoded| - index
    {
      ghost var step := DecodePoint(encoded, index, at);
      var latitude := DecodeCoordinate(encoded, index);
      if latitude.Err? { return Err(latitude.error); }
      var longitude := DecodeCoordinate(encoded, latitude.value.1);
      if longitude.Err? { return Err(longitude.error); }
      index := longitude.value.1;
      at := Units(at.lat + latitude.value.0, at.lng + longitude.value.0);
      var point := FromUnits(at);
      if !InRange(point) { assert step == Err(InvalidCoordinates); return Err(InvalidCoordinates); }
      assert step == Ok((at, index));
      PrependPrepend(units, at, DecodeFrom(encoded, index, at));
      units := units + [at];
      points := points + [point];
    }
    assert units + [] == units;
    return Ok(points);
  }

  lemma PrependNothing(rest: Result<seq<Units>, DecodeError>)
    ensures Prepend([], rest) == rest
  {
    if rest.Ok? { assert [] + rest.value == rest.value; }
  }

  lemma PrependPrepend(units: seq<Units>, u: Units, rest: Result<seq<Units>, DecodeError>)
    ensures Prepend(units, Prepend([u], rest)) == Prepend(units + [u], rest)
  {
    if rest.Ok? { assert units + ([u] + rest.value) == units + [u] + rest.value; }
  }

  // --------------------------------------------------------------- round trip

  lemma ZigZagRoundTrip(delta: int)
    requires -0x4000_0000 <= delta < 0x4000_0000
    ensures 0 <= ZigZag(delta) < HALF && UnZigZag(ZigZag(delta)) == delta
  {
  }

  /** Character codes from here on say that more chunks follow. */
  const CONTINUES: int := 95

  /** One step of the decoder on a character it knows. */
  lemma ChunkStep(encoded: seq<int>, index: nat, j: nat, result: int)
    requires index < |encoded| && 63 <= encoded[index] <= 126 && j <= 6
    ensures var merged := Merge(result, encoded[index] - 63, j);
      DecodeChunks(encoded, index, j, result) ==
        if encoded[index] < CONTINUES then Ok((UnZigZag(merged), index + 1))
        else DecodeChunks(encoded, index + 1, j + 1, merged)
  {
  }

  /** One value's characters: all but the last say that more follow. */
  predicate IsValue(e: seq<int>)
  {
    e != [] && (forall i :: 0 <= i < |e| - 1 ==> CONTINUES <= e[i] <= 126) && 63 <= e[|e| - 1] < CONTINUES
  }

  predicate IsValueAt(s: seq<int>, i: nat, next: nat)
  {
    i < next <= |s| && (forall k :: i <= k < next - 1 ==> CONTINUES <= s[k] <= 126) && 63 <= s[next - 1] < CONTINUES
  }

  /** The number the five-bit chunks from i up to `next` spell. */
  function ChunkValue(s: seq<int>, i: nat, next: nat): (v: nat)
    requires IsValueAt(s, i, next)
    decreases next - i
  {
    if next == i + 1 then s[i] - 63 else s[i] - CONTINUES + 0x20 * ChunkValue(s, i + 1, next)
  }

  /** The same number chunk by chunk, chunk k worth its weight at position j + k. */
  function ChunkSum(s: seq<int>, i: nat, next: nat, j: nat): (v: nat)
    requires IsValueAt(s, i, next)
    decreases next - i
  {
    Low(s[i]) * Weight(j) + if next == i + 1 then 0 else ChunkSum(s, i + 1, next, j + 1)
  }

  function Low(code: int): (low: nat)
  {
    (code - 63) % 0x20
  }

  lemma {:induction false} SumIsValue(s: seq<int>, i: nat, next: nat, j: nat)
    requires IsValueAt(s, i, next)
    ensures ChunkSum(s, i, next, j) == ChunkValue(s, i, next) * Weight(j)
    decreases next - i
  {
    if next > i + 1 {
      SumIsValue(s, i + 1, next, j + 1);
      ShiftChunk(Low(s[i]), ChunkValue(s, i + 1, next), j);
      assert ChunkValue(s, i, next) == Low(s[i]) + 0x20 * ChunkValue(s, i + 1, next);
    }
  }

  lemma ShiftChunk(low: int, more: int, j: nat)
    ensures (low + 0x20 * more) * Weight(j) == low * Weight(j) + more * Weight(j + 1)
  {
  }

  lemma MergeFits(result: nat, code: int, j: nat)
    requires result + Low(code) * Weight(j) < HALF
    ensures Low(code) * Weight(j) >= 0 && Merge(result, code - 63, j) == result + Low(code) * Weight(j)
  {
  }

  /** The chunks of a value, read at any chunk position with a partial result, give the
      number they spell and stop at its end, as long as it fits the 32-bit word. */
  lemma {:induction false} DecodesChunkSum(s: seq<int>, i: nat, next: nat, j: nat, result: nat)
    requires IsValueAt(s, i, next) && j + (next - i) <= 7 && result + ChunkSum(s, i, next, j) < HALF
    ensures DecodeChunks(s, i, j, result) == Ok((UnZigZag(result + ChunkSum(s, i, next, j)), next))
    decreases next - i
  {
    ChunkStep(s, i, j, result);
    MergeFits(result, s[i], j);
    if next > i + 1 { DecodesChunkSum(s, i + 1, next, j + 1, Merge(result, s[i] - 63, j)); }
  }

  lemma FirstCode(v: int)
    requires v >= 0
    ensures var e := EncodeValue(v); var byte := e[0] - 63;
      && byte == (if v >= 0x20 then 0x20 + v % 0x20 else v) && byte % 0x20 == v % 0x20
      && (v >= 0x20 ==> e[1..] == EncodeValue(v / 0x20))
  {
  }

  /** The encoder emits values without a padded zero. */
  lemma {:induction false} EncodedIsMinimal(v: int, n: nat)
    requires 0 <= v < Weight(n) && n > 0
    ensures IsValue(EncodeValue(v)) && |EncodeValue(v)| <= n
    ensures |EncodeValue(v)| > 1 ==> EncodeValue(v)[|EncodeValue(v)| - 1] != 63
    ensures v > 0 ==> EncodeValue(v)[|EncodeValue(v)| - 1] != 63
    decreases n
  {
    if v >= 0x20 {
      FirstCode(v);
      EncodedIsMinimal(v / 0x20, n - 1);
      assert EncodeValue(v) == [EncodeValue(v)[0]] + EncodeValue(v / 0x20);
    }
  }

  /** The characters the encoder writes for v spell v. */
  lemma {:induction false} EncodedSpells(s: seq<int>, i: nat, next: nat, v: int)
    requires v >= 0 && IsValueAt(s, i, next) && s[i..next] == EncodeValue(v)
    ensures ChunkValue(s, i, next) == v
    decreases v
  {
    FirstCode(v);
    assert s[i] == s[i..next][0];
    if v >= 0x20 {
      assert s[i + 1..next] == s[i..next][1..];
      EncodedSpells(s, i + 1, next, v / 0x20);
    }
  }

  /** Decoding an encoded delta at its position gives it back, and its length. */
  lemma ValueRoundTrip(encoded: seq<int>, index: nat, delta: int, e: seq<int>)
    requires -0x4000_0000 <= delta < 0x4000_0000
    requires e == EncodeValue(ZigZag(delta)) && index + |e| <= |encoded| && encoded[index..index + |e|] == e
    ensures DecodeChunks(encoded, index, 0, 0) == Ok((delta, index + |e|))
  {
    var v, next := ZigZag(delta), index + |e|;
    ZigZagRoundTrip(delta);
    WordWeight();
    EncodedIsMinimal(v, 7);
    assert forall k {:trigger encoded[k]} :: index <= k < next ==> encoded[k] == e[k - index];
    EncodedSpells(encoded, index, next, v);
    SumIsValue(encoded, index, next, 0);
    assert v * Weight(0) == v;
    DecodesChunkSum(encoded, index, next, 0, 0);
  }

  lemma WordWeight()
    ensures Weight(6) == 0x4000_0000 && Weight(7) == 0x8_0000_0000
  {
  }

  predicate UnitsInRange(u: Units)
  {
    -9_000_000 <= u.lat <= 9_000_000 && -18_000_000 <= u.lng <= 18_000_000
  }

  lemma PointRoundTrip(encoded: seq<int>, index: nat, u: Units, prev: Units, a: seq<int>, b: seq<int>)
    requires UnitsInRange(u) && UnitsInRange(prev)
    requires a == EncodeValue(ZigZag(u.lat - prev.lat)) && b == EncodeValue(ZigZag(u.lng - prev.lng))
    requires index + |a| + |b| <= |encoded|
    requires encoded[index..index + |a|] == a && encoded[index + |a|..index + |a| + |b|] == b
    ensures DecodePoint(encoded, index, prev) == Ok((u, index + |a| + |b|))
  {
    var middle := index + |a|;
    assert DecodeChunks(encoded, index, 0, 0) == Ok((u.lat - prev.lat, middle)) by {
      ValueRoundTrip(encoded, index, u.lat - prev.lat, a);
    }
    assert DecodeChunks(encoded, middle, 0, 0) == Ok((u.lng - prev.lng, middle + |b|)) by {
      ValueRoundTrip(encoded, middle, u.lng - prev.lng, b);
    }
  }

  predicate AllUnitsInRange(units: seq<Units>)
  {
    forall i :: 0 <= i < |units| ==> UnitsInRange(units[i])
  }

  lemma SplitThree(s: seq<int>, index: nat, a: seq<int>, b: seq<int>, c: seq<int>)
    requires index <= |s| && s[index..] == a + b + c
    ensures index + |a| + |b| <= |s|
    ensures s[index..index + |a|] == a && s[index + |a|..index + |a| + |b|] == b && s[index + |a| + |b|..] == c
  {
  }

  /** The first point is read back and the rest of the string encodes the rest. */
  lemma FirstPoint(encoded: seq<int>, index: nat, units: seq<Units>, prev: Units) returns (next: nat)
    requires units != [] && UnitsInRange(units[0]) && UnitsInRange(prev)
    requires index <= |encoded| && encoded[index..] == EncodeFrom(units, prev)
    ensures index < next <= |encoded| && DecodePoint(encoded, index, prev) == Ok((units[0], next))
    ensures encoded[next..] == EncodeFrom(units[1..], units[0])
  {
    var u := units[0];
    var a, b := EncodeValue(ZigZag(u.lat - prev.lat)), EncodeValue(ZigZag(u.lng - prev.lng));
    SplitThree(encoded, index, a, b, EncodeFrom(units[1..], u));
    PointRoundTrip(encoded, index, u, prev, a, b);
    next := index + |a| + |b|;
  }

  lemma {:induction false} UnitsRoundTrip(encoded: seq<int>, index: nat, units: seq<Units>, prev: Units)
    requires AllUnitsInRange(units) && UnitsInRange(prev)
    requires index <= |encoded| && encoded[index..] == EncodeFrom(units, prev)
    ensures DecodeFrom(encoded, index, prev) == Ok(units)
    decreases |units|
  {
    if units != [] {
      var next := FirstPoint(encoded, index, units, prev);
      UnitsRoundTrip(encoded, next, units[1..], units[0]);
      assert [units[0]] + units[1..] == units;
    }
  }

  // ------------------------------------------------------------- on points

  predicate AllInRange(points: seq<LatLng>)
  {
    forall i :: 0 <= i < |points| ==> InRange(points[i])
  }

  /** The points rounded to 1e-5 degrees. */
  function Rounded(points: seq<LatLng>): seq<LatLng>
  {
    AllFromUnits(AllToUnits(points))
  }

  lemma AllToUnitsInRange(points: seq<LatLng>)
    requires AllInRange(points)
    ensures AllUnitsInRange(AllToUnits(points))
  {
  }

  /** Decoding an encoded list reads the whole string and gives the points
      rounded to 1e-5 degrees. */
  lemma RoundTrip(points: seq<LatLng>)
    requires AllInRange(points)
    ensures Decode(Encode(points)) == Ok(Rounded(points))
  {
    AllToUnitsInRange(points);
    assert Encode(points)[0..] == Encode(points);
    UnitsRoundTrip(Encode(points), 0, AllToUnits(points), ORIGIN);
  }

  lemma FromUnitsInjective(a: seq<Units>, b: seq<Units>)
    requires AllFromUnits(a) == AllFromUnits(b)
    ensures a == b
  {
  }

  /** Two lists encode alike exactly when they round alike. */
  lemma EncodingIsInjective(a: seq<LatLng>, b: seq<LatLng>)
    requires AllInRange(a) && AllInRange(b)
    ensures Encode(a) == Encode(b) <==> Rounded(a) == Rounded(b)
  {
    RoundTrip(a);
    RoundTrip(b);
    if Rounded(a) == Rounded(b) { FromUnitsInjective(AllToUnits(a), AllToUnits(b)); }
  }

  /** Points already on the 1e-5 grid survive rounding, so a decoded path re-encodes exactly. */
  lemma GridPointsAreStable(units: seq<Units>)
    ensures AllToUnits(AllFromUnits(units)) == units
  {
  }

  predicate Printable(codes: seq<int>)
  {
    forall i :: 0 <= i < |codes| ==> 63 <= codes[i] <= 126
  }

  lemma {:induction false} ValueIsPrintable(v: int)
    requires v >= 0
    ensures Printable(EncodeValue(v))
    decreases v
  {
    if v >= 0x20 { ValueIsPrintable(v / 0x20); }
  }

  lemma {:induction false} UnitsArePrintable(units: seq<Units>, prev: Units)
    requires AllUnitsInRange(units) && UnitsInRange(prev)
    ensures Printable(EncodeFrom(units, prev))
    decreases |units|
  {
    if units != [] {
      var dlat, dlng := units[0].lat - prev.lat, units[0].lng - prev.lng;
      ZigZagRoundTrip(dlat);
      ZigZagRoundTrip(dlng);
      ValueIsPrintable(ZigZag(dlat));
      ValueIsPrintable(ZigZag(dlng));
      UnitsArePrintable(units[1..], units[0]);
    }
  }

  /** Every emitted code unit is between 63 and 126. */
  lemma EncodingIsPrintable(points: seq<LatLng>)
    requires AllInRange(points)
    ensures Printable(Encode(points))
  {
    AllToUnitsInRange(points);
    UnitsArePrintable(AllToUnits(points), ORIGIN);
  }
}
