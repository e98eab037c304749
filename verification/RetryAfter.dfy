/** The delay-seconds form of the Retry-After header (section 10.2.3 of RFC 9110),
    read with a saturating 32-bit accumulator. */
module RetryAfter {
  import opened Wrappers
  import opened Words

  const MAX_SECONDS: uint32 := 300

  predicate Blank(c: char) { c == ' ' || c == '\t' }

  predicate Digit(c: char) { '0' <= c <= '9' }

  predicate All(s: string, p: char -> bool)
  {
    forall i :: 0 <= i < |s| ==> p(s[i])
  }

  /** The number a run of digits denotes. */
  function Value(digits: string): nat
    requires All(digits, Digit)
  {
    if digits == "" then 0
    else Value(digits[..|digits| - 1]) * 10 + (digits[|digits| - 1] - '0') as nat
  }

  function Capped(n: nat): (seconds: uint32)
    ensures seconds <= MAX_SECONDS
  {
    if n < MAX_SECONDS then n else MAX_SECONDS
  }

  /** Blanks, at least one digit, blanks. */
  predicate Wellformed(header: string, before: string, digits: string, after: string)
  {
    header == before + digits + after && All(before, Blank) && All(after, Blank) && All(digits, Digit) && digits != ""
  }

  lemma SliceAll(s: string, i: nat, j: nat, p: char -> bool)
    requires i <= j <= |s| && All(s[i..j], p)
    ensures forall k {:trigger s[k]} :: i <= k < j ==> p(s[k])
  {
  }

  lemma OneDigitMore(s: string, i: nat, j: nat)
    requires i <= j < |s| && All(s[i..j], Digit) && Digit(s[j])
    ensures All(s[i..j + 1], Digit)
    ensures Value(s[i..j + 1]) == Value(s[i..j]) * 10 + (s[j] - '0') as nat
  {
    assert s[i..j + 1][..j - i] == s[i..j];
    assert s[i..j + 1] == s[i..j] + [s[j]];
  }

  /** One digit more never leaves 32 bits and keeps the capped value exact. */
  lemma SaturatesExactly(n: nat, digit: nat)
    requires digit <= 9
    ensures Capped(n * 10 + digit) ==
      if Capped(n) > (MAX_SECONDS - digit) / 10 then MAX_SECONDS else Capped(n) * 10 + digit
  {
  }

  /** The first position at or after `from` whose character is not in `p`. */
  method SkipWhile(s: string, p: char -> bool, from: nat) returns (i: nat)
    requires from <= |s|
    ensures from <= i <= |s| && All(s[from..i], p) && (i < |s| ==> !p(s[i]))
  {
    i := from;
    while i < |s| && p(s[i])
      invariant from <= i <= |s| && forall j :: from <= j < i ==> p(s[j])
    {
      i := i + 1;
    }
  }

  method ReadSeconds(s: string, from: nat) returns (seconds: uint32, i: nat)
    requires from <= |s|
    ensures from <= i <= |s| && All(s[from..i], Digit) && (i < |s| ==> !Digit(s[i]))
    ensures seconds == Capped(Value(s[from..i]))
  {
    seconds, i := 0, from;
    while i < |s| && Digit(s[i])
      invariant from <= i <= |s| && All(s[from..i], Digit) && seconds == Capped(Value(s[from..i]))
    {
      var digit := (s[i] - '0') as nat;
      SaturatesExactly(Value(s[from..i]), digit);
      OneDigitMore(s, from, i);
      seconds := if seconds > (MAX_SECONDS - digit) / 10 then MAX_SECONDS else seconds * 10 + digit;
      i := i + 1;
    }
  }

  /** A header splits in at most one way, and the greedy reader finds it. */
  lemma GreedySplit(header: string, before: string, digits: string, after: string, start: nat, stop: nat, end: nat)
    requires Wellformed(header, before, digits, after)
    requires start <= stop <= end <= |header|
    requires All(header[0..start], Blank) && (start < |header| ==> !Blank(header[start]))
    requires All(header[start..stop], Digit) && (stop < |header| ==> !Digit(header[stop]))
    requires All(header[stop..end], Blank) && (end < |header| ==> !Blank(header[end]))
    ensures start == |before| && stop == |before| + |digits| && end == |header|
    ensures header[start..stop] == digits
  {
    var b, d := |before|, |before| + |digits|;
    assert forall i {:trigger header[i]} :: 0 <= i < b ==> header[i] == before[i] && Blank(header[i]);
    assert forall i {:trigger header[i]} :: b <= i < d ==> header[i] == digits[i - b] && Digit(header[i]);
    assert forall i {:trigger header[i]} :: d <= i < |header| ==> header[i] == after[i - d] && Blank(header[i]);
    SliceAll(header, 0, start, Blank);
    SliceAll(header, start, stop, Digit);
    assert Digit(header[b]) && !Blank(header[b]);
    assert start <= b && start >= b;
    assert d == |header| || (Blank(header[d]) && !Digit(header[d]));
    assert stop <= d && stop >= d;
  }

  lemma EverySplitIsGreedy(s: string, start: nat, stop: nat, end: nat)
    requires start <= stop <= end <= |s|
    requires All(s[0..start], Blank) && (start < |s| ==> !Blank(s[start]))
    requires All(s[start..stop], Digit) && (stop < |s| ==> !Digit(s[stop]))
    requires All(s[stop..end], Blank) && (end < |s| ==> !Blank(s[end]))
    ensures forall before: string, digits: string, after: string :: Wellformed(s, before, digits, after) ==>
      start < stop && end == |s| && digits == s[start..stop]
  {
    forall before: string, digits: string, after: string | Wellformed(s, before, digits, after)
      ensures start < stop && end == |s| && digits == s[start..stop]
    {
      GreedySplit(s, before, digits, after, start, stop, end);
    }
  }

  /** A well-formed header gives its value in milliseconds capped at five minutes,
      however many digits it has; anything else gives 0. */
  method RetryAfterDelayMs(header: Option<string>) returns (delay: uint32)
    ensures forall before: string, digits: string, after: string ::
      header.Some? && Wellformed(header.value, before, digits, after) ==> delay == Capped(Value(digits)) * 1000
    ensures (forall before: string, digits: string, after: string ::
      header.Some? ==> !Wellformed(header.value, before, digits, after)) ==> delay == 0
  {
    if header.None? { return 0; }
    var s := header.value;
    var start := SkipWhile(s, Blank, 0);
    var seconds, stop := ReadSeconds(s, start);
    var end := SkipWhile(s, Blank, stop);
    EverySplitIsGreedy(s, start, stop, end);
    if start == stop || end < |s| { return 0; }
    assert s == s[0..start] + s[start..stop] + s[stop..];
    assert All(s[stop..], Blank) by { assert s[stop..] == s[stop..end]; }
    assert Wellformed(header.value, s[0..start], s[start..stop], s[stop..]);
    delay := if seconds * 1000 < 300_000 then seconds * 1000 else 300_000;
  }
}
