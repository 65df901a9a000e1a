/**
 * The Python `str` operations that the brute-force engine relies on, with
 * Python's own edge cases: slices with negative bounds, `str.replace` with an
 * empty pattern, `zfill` with a sign, `strip` with Python's whitespace set.
 * Case mapping is ASCII only.
 */
module Text {
  import opened Wrappers
  import opened Arith

  // ---------------------------------------------------------------------------
  // Case mapping (ASCII)

  function LowerChar(c: char): char {
    if 'A' <= c <= 'Z' then (c as int + 32) as char else c
  }

  function UpperChar(c: char): char {
    if 'a' <= c <= 'z' then (c as int - 32) as char else c
  }

  /** `s.lower()`, ASCII letters only. */
  function Lower(s: string): (r: string)
    ensures |r| == |s|
    ensures forall i :: 0 <= i < |r| ==> !('A' <= r[i] <= 'Z')
    ensures forall i :: 0 <= i < |r| ==> LowerChar(r[i]) == LowerChar(s[i])
  {
    if s == [] then [] else [LowerChar(s[0])] + Lower(s[1..])
  }

  /** `s.upper()`, ASCII letters only. */
  function Upper(s: string): (r: string)
    ensures |r| == |s|
    ensures forall i :: 0 <= i < |r| ==> !('a' <= r[i] <= 'z')
    ensures forall i :: 0 <= i < |r| ==> UpperChar(r[i]) == UpperChar(s[i])
  {
    if s == [] then [] else [UpperChar(s[0])] + Upper(s[1..])
  }

  lemma {:induction false} LowerIdempotent(s: string)
    ensures Lower(Lower(s)) == Lower(s)
  {
    if s != [] {
      LowerIdempotent(s[1..]);
    }
  }

  lemma {:induction false} UpperIdempotent(s: string)
    ensures Upper(Upper(s)) == Upper(s)
  {
    if s != [] {
      UpperIdempotent(s[1..]);
    }
  }

  // ---------------------------------------------------------------------------
  // Substring search

  /** `p` occurs in `s` at index `i`. */
  predicate OccursAt(s: string, p: string, i: int) {
    0 <= i && i + |p| <= |s| && s[i..i + |p|] == p
  }

  /** `s.find(p, i)`: the first index at or after `i` where `p` occurs. */
  function FindFrom(s: string, p: string, i: nat): (r: Option<nat>)
    ensures r.Some? ==> i <= r.value && OccursAt(s, p, r.value)
    ensures r.Some? ==> forall j :: i <= j < r.value ==> !OccursAt(s, p, j)
    ensures r.None? ==> forall j :: i <= j ==> !OccursAt(s, p, j)
    decreases |s| - i
  {
    if i + |p| > |s| then None
    else if s[i..i + |p|] == p then Some(i)
    else FindFrom(s, p, i + 1)
  }

  /** `p in s`. */
  predicate Contains(s: string, p: string) {
    FindFrom(s, p, 0).Some?
  }

  lemma ContainsIff(s: string, p: string)
    ensures Contains(s, p) <==> exists i :: OccursAt(s, p, i)
  {
    if Contains(s, p) {
      assert OccursAt(s, p, FindFrom(s, p, 0).value);
    }
  }

  /** No character of `w` occurs in `p`. */
  predicate CharDisjoint(w: string, p: string) {
    forall k :: 0 <= k < |w| ==> w[k] !in p
  }

  // ---------------------------------------------------------------------------
  // str.replace

  /** `s.replace("", w)`: `w` before every character and at the end. */
  function Interleave(s: string, w: string): string {
    if s == [] then w else w + ([s[0]] + Interleave(s[1..], w))
  }

  /** `s.replace(p, w)`: every non-overlapping occurrence of `p`, scanning left to right. */
  function ReplaceAll(s: string, p: string, w: string): string {
    if p == [] then Interleave(s, w) else ReplaceEach(s, p, w)
  }

  function ReplaceEach(s: string, p: string, w: string): string
    requires p != []
    decreases |s|
  {
    match FindFrom(s, p, 0)
    case None => s
    case Some(i) => s[..i] + (w + ReplaceEach(s[i + |p|..], p, w))
  }

  /** Replacing a pattern that does not occur leaves the string as it is. */
  lemma ReplaceAbsent(s: string, p: string, w: string)
    requires p != []
    requires !Contains(s, p)
    ensures ReplaceAll(s, p, w) == s
  {
  }

  /** No index of `s` starts an occurrence of `p`. */
  lemma NotContains(s: string, p: string)
    requires forall j :: 0 <= j ==> !OccursAt(s, p, j)
    ensures !Contains(s, p)
  {
  }

  lemma NotOccursAt(s: string, p: string, j: int)
    requires !Contains(s, p)
    ensures !OccursAt(s, p, j)
  {
  }

  /** An occurrence of `p` in `a + w + b` lies in `a`, in `b`, or shares a character with `w`. */
  lemma NoOccurrenceAcross(a: string, w: string, b: string, p: string)
    requires p != [] && w != [] && CharDisjoint(w, p)
    requires !Contains(a, p) && !Contains(b, p)
    ensures !Contains(a + (w + b), p)
  {
    var x := a + (w + b);
    forall j | 0 <= j ensures !OccursAt(x, p, j) {
      if j + |p| > |x| {
      } else if j + |p| <= |a| {
        assert x[j..j + |p|] == a[j..j + |p|];
        NotOccursAt(a, p, j);
      } else if j >= |a| + |w| {
        var j' := j - |a| - |w|;
        assert x[j..j + |p|] == b[j'..j' + |p|];
        NotOccursAt(b, p, j');
      } else {
        var m := if j < |a| then |a| else j;
        var y := x[j..j + |p|];
        assert y[m - j] == x[m] == w[m - |a|];
        assert y[m - j] in y;
        assert w[m - |a|] !in p;
      }
    }
    NotContains(x, p);
  }

  /**
   * After `s.replace(q, w)` no occurrence of `p` is left, provided `p` was
   * either the pattern replaced or absent from `s`, and `w` is non-empty and
   * shares no character with `p`.  (With an empty `w`, text on the two sides
   * of a removed occurrence can join into a new one: "{{A}A}".replace("{A}", "")
   * is "{A}".)
   */
  lemma {:induction false} ReplaceLeavesNoOccurrence(s: string, q: string, w: string, p: string)
    requires q != [] && p != []
    requires w != [] && CharDisjoint(w, p)
    requires q == p || !Contains(s, p)
    ensures !Contains(ReplaceAll(s, q, w), p)
    decreases |s|
  {
    var f := FindFrom(s, q, 0);
    if f.Some? {
      var i := f.value;
      var b := s[i + |q|..];
      if q == p {
        BeforeFirstOccurrence(s, p, i);
      } else {
        PrefixAbsent(s, p, i);
        SuffixAbsent(s, p, i + |q|);
      }
      ReplaceLeavesNoOccurrence(b, q, w, p);
      ReplaceUnfold(s, q, w, i);
      NoOccurrenceAcross(s[..i], w, ReplaceAll(b, q, w), p);
    }
  }

  lemma ReplaceUnfold(s: string, q: string, w: string, i: nat)
    requires q != [] && FindFrom(s, q, 0) == Some(i)
    ensures ReplaceEach(s, q, w) == s[..i] + (w + ReplaceEach(s[i + |q|..], q, w))
  {
  }

  /** No occurrence of `q` in `s` overlaps the occurrence of `p` at `k`. */
  predicate Apart(s: string, q: string, p: string, k: int) {
    forall j :: OccursAt(s, q, j) ==> j + |q| <= k || k + |p| <= j
  }

  /**
   * An occurrence of `p` that no occurrence of `q` overlaps survives
   * `s.replace(q, w)`, at offset `k'` of the result.
   */
  lemma {:induction false} ReplaceKeepsOccurrence(s: string, q: string, w: string, p: string, k: nat) returns (k': nat)
    requires q != [] && OccursAt(s, p, k) && Apart(s, q, p, k)
    ensures OccursAt(ReplaceEach(s, q, w), p, k')
    decreases |s|
  {
    match FindFrom(s, q, 0)
    case None =>
      k' := k;
    case Some(i) =>
      ReplaceUnfold(s, q, w, i);
      var b := s[i + |q|..];
      var r := ReplaceEach(b, q, w);
      if k + |p| <= i {
        k' := k;
        OccursInPrefix(s, p, k, i);
        OccursInFront(s[..i], w + r, p, k);
      } else {
        var kb := k - i - |q|;
        OccursInSuffix(s, p, k, i + |q|);
        ApartSuffix(s, q, p, k, i + |q|);
        var kr := ReplaceKeepsOccurrence(b, q, w, p, kb);
        OccursBehind(w, r, p, kr);
        OccursBehind(s[..i], w + r, p, |w| + kr);
        k' := i + |w| + kr;
      }
  }

  lemma OccursInPrefix(s: string, p: string, k: nat, hi: nat)
    requires OccursAt(s, p, k) && k + |p| <= hi <= |s|
    ensures OccursAt(s[..hi], p, k)
  {
    assert s[..hi][k..k + |p|] == s[k..k + |p|];
  }

  lemma OccursInSuffix(s: string, p: string, k: nat, lo: nat)
    requires OccursAt(s, p, k) && lo <= k
    ensures OccursAt(s[lo..], p, k - lo)
  {
    assert s[lo..][k - lo..k - lo + |p|] == s[k..k + |p|];
  }

  lemma OccursInFront(a: string, b: string, p: string, k: nat)
    requires OccursAt(a, p, k)
    ensures OccursAt(a + b, p, k)
  {
    assert (a + b)[k..k + |p|] == a[k..k + |p|];
  }

  lemma OccursBehind(a: string, b: string, p: string, k: nat)
    requires OccursAt(b, p, k)
    ensures OccursAt(a + b, p, |a| + k)
  {
    assert (a + b)[|a| + k..|a| + k + |p|] == b[k..k + |p|];
  }

  /** Apartness carries over to a suffix that still holds the occurrence. */
  lemma ApartSuffix(s: string, q: string, p: string, k: nat, lo: nat)
    requires Apart(s, q, p, k) && lo <= k <= |s|
    ensures Apart(s[lo..], q, p, k - lo)
  {
    forall j | OccursAt(s[lo..], q, j) ensures j + |q| <= k - lo || k - lo + |p| <= j {
      assert s[j + lo..j + lo + |q|] == s[lo..][j..j + |q|];
      assert OccursAt(s, q, j + lo);
    }
  }

  /** A prefix of a string without `p` has no `p` either. */
  lemma PrefixAbsent(s: string, p: string, hi: nat)
    requires hi <= |s| && !Contains(s, p)
    ensures !Contains(s[..hi], p)
  {
    InsideAbsent(s, p, 0, hi);
    assert s[0..hi] == s[..hi];
  }

  /** A suffix of a string without `p` has no `p` either. */
  lemma SuffixAbsent(s: string, p: string, lo: nat)
    requires lo <= |s| && !Contains(s, p)
    ensures !Contains(s[lo..], p)
  {
    InsideAbsent(s, p, lo, |s|);
    assert s[lo..|s|] == s[lo..];
  }

  /** A slice of a string without `p` has no `p` either. */
  lemma InsideAbsent(s: string, p: string, lo: nat, hi: nat)
    requires lo <= hi <= |s| && !Contains(s, p)
    ensures !Contains(s[lo..hi], p)
  {
    var t := s[lo..hi];
    forall j | 0 <= j ensures !OccursAt(t, p, j) {
      if j + |p| <= |t| {
        SliceOfSlice(s, lo, hi, j, j + |p|);
        NotOccursAt(s, p, lo + j);
      }
    }
    NotContains(t, p);
  }

  lemma SliceOfSlice(s: string, lo: nat, hi: nat, j: nat, k: nat)
    requires lo <= hi <= |s| && j <= k <= hi - lo
    ensures s[lo..hi][j..k] == s[lo + j..lo + k]
  {
    var u, v := s[lo..hi][j..k], s[lo + j..lo + k];
    assert |u| == |v|;
    forall i | 0 <= i < |u| ensures u[i] == v[i] {
      assert u[i] == s[lo + j + i];
    }
  }

  /** The text before the first occurrence of `p` has no `p`. */
  lemma BeforeFirstOccurrence(s: string, p: string, i: nat)
    requires p != [] && FindFrom(s, p, 0) == Some(i)
    ensures !Contains(s[..i], p)
  {
    var t := s[0..i];
    forall j | 0 <= j ensures !OccursAt(t, p, j) {
      if j + |p| <= |t| {
        SliceOfSlice(s, 0, i, j, j + |p|);
        assert !OccursAt(s, p, j);
      }
    }
    NotContains(t, p);
    assert s[..i] == t;
  }

  // ---------------------------------------------------------------------------
  // Slices, repetition, reversal, padding

  /** A Python slice bound: negative counts from the end, then clamped to [0, n]. */
  function ClampIndex(i: int, n: nat): (r: nat)
    ensures r <= n
    ensures 0 <= i <= n ==> r == i
    ensures i > n ==> r == n
    ensures i < 0 && 0 <= i + n ==> r == n + i
    ensures i + n < 0 ==> r == 0
  {
    if i < 0 then (if i + n < 0 then 0 else i + n)
    else if i > n then n
    else i
  }

  /** The clamped upper bound of a slice; an omitted bound is the length. */
  function EndBound(end: Option<int>, n: nat): (r: nat)
    ensures r <= n
    ensures end.None? ==> r == n
  {
    match end
    case None => n
    case Some(e) => ClampIndex(e, n)
  }

  /**
   * `s[start:end]`, with `end == None` for an omitted bound: the characters
   * from the clamped start up to the clamped end, and nothing when the
   * clamped bounds cross.
   */
  function Slice(s: string, start: int, end: Option<int>): (r: string)
    ensures var lo, hi := ClampIndex(start, |s|), EndBound(end, |s|);
            && |r| == (if lo < hi then hi - lo else 0)
            && forall k :: 0 <= k < |r| ==> r[k] == s[lo + k]
  {
    var lo := ClampIndex(start, |s|);
    var hi := EndBound(end, |s|);
    if lo >= hi then [] else s[lo..hi]
  }

  lemma SliceNonNegative(s: string, start: nat, end: nat)
    requires start <= end <= |s|
    ensures Slice(s, start, Some(end)) == s[start..end]
  {
  }

  /** A negative start counts from the end: `s[-k:]` is the last k characters, or all of s when k is too large. */
  lemma SliceFromEnd(s: string, k: nat)
    requires k > 0
    ensures Slice(s, -(k as int), None) == if k <= |s| then s[|s| - k..] else s
  {
    var r := Slice(s, -(k as int), None);
    if k <= |s| {
      assert r == s[|s| - k..];
    } else {
      assert r == s;
    }
  }

  /** A start at or past the end gives the empty slice, whatever the end. */
  lemma SlicePastEnd(s: string, start: int, end: Option<int>)
    requires start >= |s|
    ensures Slice(s, start, end) == []
  {
  }

  /** `s * n`. */
  function Repeat(s: string, n: int): (r: string)
    ensures |r| == if n <= 0 then 0 else |s| * n
    decreases n
  {
    if n <= 0 then [] else s + Repeat(s, n - 1)
  }

  /** `s * n` is n copies of s: character k is character k % |s| of s. */
  lemma {:induction false} RepeatCopies(s: string, n: int)
    ensures forall k :: 0 <= k < |Repeat(s, n)| ==> |s| > 0 && Repeat(s, n)[k] == s[k % |s|]
    decreases n
  {
    if n > 0 {
      RepeatCopies(s, n - 1);
      var r, t := Repeat(s, n), Repeat(s, n - 1);
      assert r == s + t;
      forall k | 0 <= k < |r| ensures |s| > 0 && r[k] == s[k % |s|] {
        if k < |s| {
          DivModUnique(k, |s|, 0, k);
        } else {
          assert r[k] == t[k - |s|];
          DivModStep(k, |s|);
        }
      }
    } else {
      assert Repeat(s, n) == [];
    }
  }

  /** Repeating one character gives a run of that character. */
  lemma {:induction false} RepeatChar(c: char, n: int)
    ensures forall k :: 0 <= k < |Repeat([c], n)| ==> Repeat([c], n)[k] == c
    decreases n
  {
    if n > 0 {
      RepeatChar(c, n - 1);
    }
  }

  /** `s[::-1]`. */
  function Reverse(s: string): (r: string)
    ensures |r| == |s|
    ensures forall k :: 0 <= k < |s| ==> r[k] == s[|s| - 1 - k]
  {
    if s == [] then [] else Reverse(s[1..]) + [s[0]]
  }

  lemma ReverseInvolution(s: string)
    ensures Reverse(Reverse(s)) == s
  {
    assert Reverse(Reverse(s)) == s by {
      var r := Reverse(Reverse(s));
      assert |r| == |s|;
      forall k | 0 <= k < |s| ensures r[k] == s[k] { }
    }
  }

  /** `s.zfill(width)`: zeros on the left, after a leading sign if there is one. */
  function ZeroFill(s: string, width: int): (r: string)
    ensures |r| == if width > |s| then width else |s|
    ensures width <= |s| ==> r == s
    ensures width > |s| && (s == [] || s[0] !in "+-") ==> r == Repeat("0", width - |s|) + s
    ensures width > |s| && s != [] && s[0] in "+-" ==> r == [s[0]] + Repeat("0", width - |s|) + s[1..]
  {
    if width <= |s| then s
    else if s != [] && s[0] in "+-" then [s[0]] + Repeat("0", width - |s|) + s[1..]
    else Repeat("0", width - |s|) + s
  }

  /** `s.rjust(width, fill)`. */
  function PadStart(s: string, width: int, fill: char): (r: string)
    ensures |r| == if width > |s| then width else |s|
    ensures r[|r| - |s|..] == s
    ensures forall k :: 0 <= k < |r| - |s| ==> r[k] == fill
  {
    RepeatChar(fill, width - |s|);
    if width <= |s| then s else Repeat([fill], width - |s|) + s
  }

  /** `s.ljust(width, fill)`. */
  function PadEnd(s: string, width: int, fill: char): (r: string)
    ensures |r| == if width > |s| then width else |s|
    ensures r[..|s|] == s
    ensures forall k :: |s| <= k < |r| ==> r[k] == fill
  {
    RepeatChar(fill, width - |s|);
    if width <= |s| then s else s + Repeat([fill], width - |s|)
  }

  // ---------------------------------------------------------------------------
  // strip

  /** Python's `str.isspace` for one character. */
  predicate IsSpace(c: char) {
    var n := c as int;
    n == 0x20 || 0x09 <= n <= 0x0D || 0x1C <= n <= 0x1F || n == 0x85 || n == 0xA0
    || n == 0x1680 || 0x2000 <= n <= 0x200A || n == 0x2028 || n == 0x2029
    || n == 0x202F || n == 0x205F || n == 0x3000
  }

  predicate AllSpace(s: string) {
    forall j :: 0 <= j < |s| ==> IsSpace(s[j])
  }

  /** The number of leading whitespace characters of `s`. */
  function LeadingSpace(s: string): (k: nat)
    ensures k <= |s| && AllSpace(s[..k])
    ensures k < |s| ==> !IsSpace(s[k])
  {
    if s != [] && IsSpace(s[0]) then
      var k := LeadingSpace(s[1..]);
      assert forall j :: 0 <= j < k ==> s[..k + 1][j + 1] == s[1..][..k][j];
      1 + k
    else 0
  }

  /** The length of `s` without its trailing whitespace. */
  function TrailingSpaceStart(s: string): (k: nat)
    ensures k <= |s| && AllSpace(s[k..])
    ensures 0 < k ==> !IsSpace(s[k - 1])
  {
    if s != [] && IsSpace(s[|s| - 1]) then
      var init := s[..|s| - 1];
      var k := TrailingSpaceStart(init);
      SpaceSnoc(init, s[|s| - 1], k);
      assert init + [s[|s| - 1]] == s;
      k
    else |s|
  }

  lemma SpaceSnoc(s: string, c: char, k: nat)
    requires k <= |s| && AllSpace(s[k..]) && IsSpace(c)
    ensures AllSpace((s + [c])[k..])
  {
    var t := (s + [c])[k..];
    forall j | 0 <= j < |t| ensures IsSpace(t[j]) {
      if j < |s| - k {
        assert t[j] == s[k..][j];
      }
    }
  }

  /** `s.strip()`: `s` without its leading and trailing whitespace. */
  function Strip(s: string): (r: string)
    ensures exists lo :: OccursAt(s, r, lo) && AllSpace(s[..lo]) && AllSpace(s[lo + |r|..])
    ensures r != [] ==> !IsSpace(r[0]) && !IsSpace(r[|r| - 1])
  {
    var lo := LeadingSpace(s);
    var t := s[lo..];
    var m := TrailingSpaceStart(t);
    var r := t[..m];
    assert r == s[lo..lo + m];
    assert s[lo + m..] == t[m..];
    assert OccursAt(s, r, lo);
    r
  }

  // ---------------------------------------------------------------------------
  // Decimal rendering, `str(i)` / `"{}".format(i)`

  function DigitChar(d: nat): char
    requires d < 10
  {
    "0123456789"[d]
  }

  function DigitValue(c: char): nat
    requires IsDigit(c)
  {
    c as int - '0' as int
  }

  predicate IsDigit(c: char) {
    '0' <= c <= '9'
  }

  predicate AllDigits(s: string) {
    forall k :: 0 <= k < |s| ==> IsDigit(s[k])
  }

  function NatDigits(n: nat): (r: string)
    ensures r != [] && AllDigits(r)
    ensures |r| > 1 ==> r[0] != '0'
  {
    if n < 10 then [DigitChar(n)] else NatDigits(n / 10) + [DigitChar(n % 10)]
  }

  /** `str(i)` for an integer. */
  function Decimal(i: int): (r: string)
    ensures r != []
  {
    if i < 0 then "-" + NatDigits(-i) else NatDigits(i)
  }

  function ParseNat(s: string): nat
    requires AllDigits(s)
  {
    if s == [] then 0 else 10 * ParseNat(s[..|s| - 1]) + DigitValue(s[|s| - 1])
  }

  /** `int(s)` for what `str` produces: an optional minus sign and at least one digit. */
  function ParseDecimal(s: string): Option<int> {
    if s == [] then None
    else if s[0] == '-' then
      if |s| > 1 && AllDigits(s[1..]) then Some(0 - ParseNat(s[1..])) else None
    else if AllDigits(s) then Some(ParseNat(s))
    else None
  }

  lemma {:induction false} ParseNatDigits(n: nat)
    ensures ParseNat(NatDigits(n)) == n
  {
    if n >= 10 {
      ParseNatDigits(n / 10);
      var r := NatDigits(n);
      assert r[..|r| - 1] == NatDigits(n / 10);
    }
  }

  /** Decimal rendering is injective: it can be read back. */
  lemma DecimalRoundTrip(i: int)
    ensures ParseDecimal(Decimal(i)) == Some(i)
  {
    if i < 0 {
      NegativeRoundTrip(i);
    } else {
      NonNegativeRoundTrip(i);
    }
  }

  lemma NegativeRoundTrip(i: int)
    requires i < 0
    ensures ParseDecimal(Decimal(i)) == Some(i)
  {
    var n: nat := -i;
    assert Decimal(i) == "-" + NatDigits(n);
    ParseNegated(n);
  }

  lemma ParseNegated(n: nat)
    ensures ParseDecimal("-" + NatDigits(n)) == Some(0 - n)
  {
    ParseSigned(NatDigits(n));
    ParseNatDigits(n);
  }

  /** A minus sign followed by digits reads as the negated number. */
  lemma ParseSigned(d: string)
    requires d != [] && AllDigits(d)
    ensures ParseDecimal("-" + d) == Some(0 - ParseNat(d))
  {
    var s := "-" + d;
    assert s[1..] == d;
  }

  lemma NonNegativeRoundTrip(n: nat)
    ensures ParseDecimal(Decimal(n)) == Some(n as int)
  {
    var d := NatDigits(n);
    assert IsDigit(d[0]);
    ParseNatDigits(n);
  }
}
