/** The few pieces of the Kotlin standard library whose exact behaviour the
    application relies on: string templates, `substring`, `contains`,
    `filterNotNull`, `trim` and `Int.toString`. */
module KotlinStd {
  import opened Wrappers

  /** String-template rendering of a nullable string: `"$x"` prints a null
      as the four letters `null`. */
  function Interpolate(x: Option<string>): (r: string)
    ensures x.Some? ==> r == x.value
    ensures x.None? ==> r == "null"
  {
    x.GetOr("null")
  }

  /** The exception `String.substring` throws for bad indices. */
  datatype StringIndexOutOfBounds = StringIndexOutOfBounds(start: int, end: int, length: nat)

  /** `s.substring(start, end)`: the characters at `start ..< end`, or a
      thrown `StringIndexOutOfBoundsException` when the range does not lie
      inside `s`. */
  function Substring(s: string, start: int, end: int): (r: Result<string, StringIndexOutOfBounds>)
    ensures r.Success? <==> 0 <= start <= end <= |s|
    ensures r.Success? ==> |r.value| == end - start
    ensures r.Success? ==> forall i :: 0 <= i < |r.value| ==> r.value[i] == s[start + i]
    ensures r.Failure? ==> r.error.length == |s|
  {
    if 0 <= start <= end <= |s| then Success(s[start..end])
    else Failure(StringIndexOutOfBounds(start, end, |s|))
  }

  /** `t` occurs in `s` starting at offset `i`. */
  ghost predicate OccursAt(s: string, t: string, i: int) {
    0 <= i && i + |t| <= |s| && s[i..i + |t|] == t
  }

  /** `s.contains(t)`, scanning the offsets of `s` from the left. */
  predicate Contains(s: string, t: string)
    decreases |s|
  {
    if |t| > |s| then false
    else if s[..|t|] == t then true
    else Contains(s[1..], t)
  }

  /** The scan finds `t` exactly when `t` occurs somewhere in `s`. */
  lemma {:induction false} ContainsIffOccurs(s: string, t: string)
    ensures Contains(s, t) <==> exists i :: OccursAt(s, t, i)
    decreases |s|
  {
    if |t| > |s| {
      assert forall i :: !OccursAt(s, t, i);
    } else if s[..|t|] == t {
      assert OccursAt(s, t, 0);
    } else {
      ContainsIffOccurs(s[1..], t);
      if Contains(s, t) {
        var j :| OccursAt(s[1..], t, j);
        assert s[1..][j..j + |t|] == s[j + 1..j + 1 + |t|];
        assert OccursAt(s, t, j + 1);
      } else {
        forall i | OccursAt(s, t, i)
          ensures false
        {
          assert i != 0;
          assert s[1..][i - 1..i - 1 + |t|] == s[i..i + |t|];
          assert OccursAt(s[1..], t, i - 1);
        }
      }
    }
  }

  /** `xs.filterNotNull()`: the present elements, in their original order. */
  function FilterNotNull<T>(xs: seq<Option<T>>): (r: seq<T>)
    ensures |r| <= |xs|
    ensures forall i :: 0 <= i < |r| ==> Some(r[i]) in xs
    ensures forall j :: 0 <= j < |xs| && xs[j].Some? ==> xs[j].value in r
  {
    if xs == [] then []
    else (if xs[0].Some? then [xs[0].value] else []) + FilterNotNull(xs[1..])
  }

  /** Filtering distributes over concatenation, so the order of the present
      elements is kept: with the one-element cases this pins the result down. */
  lemma {:induction false} FilterNotNullAppend<T>(xs: seq<Option<T>>, ys: seq<Option<T>>)
    ensures FilterNotNull(xs + ys) == FilterNotNull(xs) + FilterNotNull(ys)
    decreases |xs|
  {
    if xs == [] {
      assert xs + ys == ys;
    } else {
      assert (xs + ys)[1..] == xs[1..] + ys;
      FilterNotNullAppend(xs[1..], ys);
    }
  }

  /** A list without nulls passes through unchanged. */
  lemma {:induction false} FilterNotNullAllPresent<T>(xs: seq<Option<T>>)
    requires forall i :: 0 <= i < |xs| ==> xs[i].Some?
    ensures |FilterNotNull(xs)| == |xs|
    ensures forall i :: 0 <= i < |xs| ==> FilterNotNull(xs)[i] == xs[i].value
  {
    if xs != [] {
      FilterNotNullAllPresent(xs[1..]);
    }
  }

  /** A character `ws` classifies as whitespace is dropped by `trim`. The
      classifier is a parameter: the model does not reproduce
      `Char.isWhitespace`. */
  function TrimStart(s: string, ws: char -> bool): (r: string)
    ensures |r| <= |s| && r == s[|s| - |r|..]
    ensures forall i :: 0 <= i < |s| - |r| ==> ws(s[i])
    ensures r != [] ==> !ws(r[0])
    decreases |s|
  {
    if s != [] && ws(s[0]) then TrimStart(s[1..], ws) else s
  }

  function TrimEnd(s: string, ws: char -> bool): (r: string)
    ensures |r| <= |s| && r == s[..|r|]
    ensures forall i :: |r| <= i < |s| ==> ws(s[i])
    ensures r != [] ==> !ws(r[|r| - 1])
    decreases |s|
  {
    if s != [] && ws(s[|s| - 1]) then TrimEnd(s[..|s| - 1], ws) else s
  }

  /** `r` is the block of `s` starting at `k` once the whitespace on both
      sides has been cut away. */
  ghost predicate TrimmedAt(s: string, r: string, k: int, ws: char -> bool) {
    && 0 <= k <= k + |r| <= |s|
    && r == s[k..k + |r|]
    && (forall i :: 0 <= i < k ==> ws(s[i]))
    && (forall i :: k + |r| <= i < |s| ==> ws(s[i]))
  }

  /** `s.trim()`: `s` with leading and trailing whitespace removed. */
  function Trim(s: string, ws: char -> bool): (r: string)
    ensures TrimmedAt(s, r, |s| - |TrimStart(s, ws)|, ws)
    ensures r == [] || (!ws(r[0]) && !ws(r[|r| - 1]))
  {
    var t := TrimStart(s, ws);
    BlockOfBlock(s, t, TrimEnd(t, ws), ws);
    TrimEnd(t, ws)
  }

  /** A prefix of a suffix of `s` is a block of `s`, and what both cuts
      removed is whitespace when each cut removed only whitespace. */
  lemma BlockOfBlock(s: string, t: string, r: string, ws: char -> bool)
    requires |t| <= |s| && t == s[|s| - |t|..]
    requires |r| <= |t| && r == t[..|r|]
    requires forall i :: 0 <= i < |s| - |t| ==> ws(s[i])
    requires forall i :: |r| <= i < |t| ==> ws(t[i])
    ensures TrimmedAt(s, r, |s| - |t|, ws)
  {
    var k := |s| - |t|;
    assert r == s[k..k + |r|];
  }

  /** `trim` leaves nothing exactly when every character is whitespace. */
  lemma TrimEmptyIffAllWhitespace(s: string, ws: char -> bool)
    ensures Trim(s, ws) == [] <==> forall i :: 0 <= i < |s| ==> ws(s[i])
  {
  }

  /** Trimming twice is trimming once. */
  lemma TrimIdempotent(s: string, ws: char -> bool)
    ensures Trim(Trim(s, ws), ws) == Trim(s, ws)
  {
  }

  function DigitChar(d: nat): (c: char)
    requires d < 10
  {
    ('0' as int + d) as char
  }

  function DigitValue(c: char): nat {
    if '0' <= c <= '9' then c as int - '0' as int else 0
  }

  /** Reading decimal digits back as a number. */
  function ParseDecimal(s: string): nat
    decreases |s|
  {
    if s == [] then 0 else ParseDecimal(s[..|s| - 1]) * 10 + DigitValue(s[|s| - 1])
  }

  /** `n.toString()` for a non-negative `Int`. */
  function DecimalString(n: nat): (r: string)
    ensures |r| >= 1
    ensures forall i :: 0 <= i < |r| ==> '0' <= r[i] <= '9'
    ensures r[0] == '0' ==> n == 0
    ensures n == 0 ==> r == "0"
  {
    if n < 10 then [DigitChar(n)] else DecimalString(n / 10) + [DigitChar(n % 10)]
  }

  /** The decimal rendering loses nothing: it reads back as the same number. */
  lemma {:induction false} DecimalStringRoundTrip(n: nat)
    ensures ParseDecimal(DecimalString(n)) == n
  {
    if n < 10 {
      assert DecimalString(n)[..0] == [];
    } else {
      var p := DecimalString(n / 10);
      var s := p + [DigitChar(n % 10)];
      assert s[..|s| - 1] == p;
      DecimalStringRoundTrip(n / 10);
    }
  }

  /** Distinct counts render as distinct strings. */
  lemma DecimalStringInjective(m: nat, n: nat)
    requires DecimalString(m) == DecimalString(n)
    ensures m == n
  {
    DecimalStringRoundTrip(m);
    DecimalStringRoundTrip(n);
  }
}
