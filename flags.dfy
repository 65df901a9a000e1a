/**
 * Flag extraction (`BruteEngine.extract_flags`): the six patterns
 * `TAG\{[^}]+\}` for the tags flag, FLAG, ctf, CTF, NSSCTF and hgame, each
 * searched case-insensitively with `re.findall`, and the union of their
 * matches without duplicates.
 */
module Flags {
  import opened Wrappers
  import opened Text

  /** The tags of the six patterns, in their order. */
  const Tags: seq<string> := ["flag", "FLAG", "ctf", "CTF", "NSSCTF", "hgame"]

  /** The tag, in any letter case, at offset `i` of `text`. */
  predicate TagAt(text: string, tag: string, i: nat) {
    i + |tag| <= |text| && Lower(text[i..i + |tag|]) == Lower(tag)
  }

  /** `x` as a whole matches `TAG\{[^}]+\}`: tag, brace, a non-empty run without `}`, brace. */
  predicate FlagShaped(x: string, tag: string) {
    && |x| >= |tag| + 3
    && Lower(x[..|tag|]) == Lower(tag)
    && x[|tag|] == '{'
    && x[|x| - 1] == '}'
    && forall k :: |tag| < k < |x| - 1 ==> x[k] != '}'
  }

  /** The end of the match that starts at offset `i`, if the pattern matches there. */
  function MatchAt(text: string, tag: string, i: nat): (r: Option<nat>)
    ensures r.Some? ==> i + |tag| + 3 <= r.value <= |text|
  {
    var b := i + |tag|;
    if b < |text| && TagAt(text, tag, i) && text[b] == '{' then
      match FindFrom(text, "}", b + 1)
      case None => None
      case Some(k) => if k > b + 1 then Some(k + 1) else None
    else None
  }

  /** What `MatchAt` finds is flag-shaped. */
  lemma MatchAtShaped(text: string, tag: string, i: nat, e: nat)
    requires MatchAt(text, tag, i) == Some(e)
    ensures FlagShaped(text[i..e], tag)
  {
    var b := i + |tag|;
    var k := FindFrom(text, "}", b + 1).value;
    assert e == k + 1;
    FirstCloseBrace(text, b + 1, k);
    BracedSlice(text, tag, i, k);
  }

  /** Tag at `i`, `{` after it, and `}` at `k` with none in between and something inside: a flag-shaped slice. */
  lemma BracedSlice(text: string, tag: string, i: nat, k: nat)
    requires i + |tag| + 1 < k < |text| && TagAt(text, tag, i)
    requires text[i + |tag|] == '{' && text[k] == '}'
    requires forall j :: i + |tag| + 1 <= j < k ==> text[j] != '}'
    ensures FlagShaped(text[i..k + 1], tag)
  {
    var x := text[i..k + 1];
    assert x[..|tag|] == text[i..i + |tag|];
    forall m | |tag| < m < |x| - 1 ensures x[m] != '}' {
      assert x[m] == text[i + m];
    }
  }

  /** `text.find("}", s)` is the first closing brace at or after `s`. */
  lemma FirstCloseBrace(text: string, s: nat, k: nat)
    requires FindFrom(text, "}", s) == Some(k)
    ensures k < |text| && text[k] == '}'
    ensures forall j :: s <= j < k ==> text[j] != '}'
  {
    assert text[k..k + 1] == "}";
    forall j | s <= j < k ensures text[j] != '}' {
      assert !OccursAt(text, "}", j);
      assert text[j..j + 1] == [text[j]];
    }
  }

  /** The match at an offset is unique: every flag-shaped substring starting there is the one `MatchAt` finds. */
  lemma MatchAtComplete(text: string, tag: string, i: nat, e: nat)
    requires i <= e <= |text| && FlagShaped(text[i..e], tag)
    ensures MatchAt(text, tag, i) == Some(e)
  {
    var x := text[i..e];
    var b := i + |tag|;
    assert text[i..b] == x[..|tag|];
    assert text[b] == x[|tag|];
    var f := FindFrom(text, "}", b + 1);
    assert OccursAt(text, "}", e - 1) by {
      assert text[e - 1] == x[|x| - 1];
    }
    forall j | b + 1 <= j < e - 1 ensures !OccursAt(text, "}", j) {
      assert text[j] == x[j - i];
      assert text[j..j + 1] == [text[j]];
    }
  }

  /** `re.findall` from offset `i`: leftmost non-overlapping matches. */
  function FindAll(text: string, tag: string, i: nat): seq<string>
    decreases |text| - i
  {
    if i >= |text| then []
    else
      match MatchAt(text, tag, i)
      case Some(e) => [text[i..e]] + FindAll(text, tag, e)
      case None => FindAll(text, tag, i + 1)
  }

  /** Every found flag occurs in the text, at an offset `lo`, and is flag-shaped. */
  lemma {:induction false} FindAllSound(text: string, tag: string, i: nat, x: string) returns (lo: nat)
    requires x in FindAll(text, tag, i)
    ensures i <= lo && OccursAt(text, x, lo)
    ensures FlagShaped(x, tag)
    decreases |text| - i
  {
    var m := MatchAt(text, tag, i);
    if m.Some? {
      var e := m.value;
      assert FindAll(text, tag, i) == [text[i..e]] + FindAll(text, tag, e);
      if x == text[i..e] {
        lo := i;
        MatchAtShaped(text, tag, i, e);
        assert text[i..i + |x|] == x;
      } else {
        lo := FindAllSound(text, tag, e, x);
      }
    } else {
      assert FindAll(text, tag, i) == FindAll(text, tag, i + 1);
      lo := FindAllSound(text, tag, i + 1, x);
    }
  }

  /** If the pattern matches anywhere at or after `i`, findall from `i` finds something. */
  lemma {:induction false} FindAllNonEmpty(text: string, tag: string, i: nat, j: nat)
    requires i <= j && MatchAt(text, tag, j).Some?
    ensures FindAll(text, tag, i) != []
    decreases j - i
  {
    if MatchAt(text, tag, i).None? {
      FindAllNonEmpty(text, tag, i + 1, j);
    }
  }

  /** A text without an opening brace holds no match. */
  lemma {:induction false} NoBraceNoMatch(text: string, tag: string, i: nat)
    requires forall k :: 0 <= k < |text| ==> text[k] != '{'
    ensures FindAll(text, tag, i) == []
    decreases |text| - i
  {
    if i < |text| {
      NoBraceNoMatch(text, tag, i + 1);
    }
  }

  /** The matches of every pattern, in pattern order. */
  function AllMatches(text: string, tags: seq<string>): seq<string>
    decreases |tags|
  {
    if tags == [] then [] else AllMatches(text, tags[..|tags| - 1]) + FindAll(text, tags[|tags| - 1], 0)
  }

  /** The elements of `s` once each, in the order of their first occurrence. */
  function Dedup(s: seq<string>): (r: seq<string>)
    ensures forall x :: x in r <==> x in s
    ensures forall i, j :: 0 <= i < j < |r| ==> r[i] != r[j]
    decreases |s|
  {
    if s == [] then []
    else
      var r := Dedup(s[..|s| - 1]);
      assert forall x :: x in s <==> x in s[..|s| - 1] || x == s[|s| - 1];
      if s[|s| - 1] in r then r else r + [s[|s| - 1]]
  }

  /** `extract_flags`. The source returns `list(set(...))`, whose order is unspecified; this keeps first occurrences. */
  function ExtractFlags(text: string): seq<string> {
    Dedup(AllMatches(text, Tags))
  }

  lemma {:induction false} AllMatchesSound(text: string, tags: seq<string>, x: string)
    requires x in AllMatches(text, tags)
    ensures exists t :: t in tags && x in FindAll(text, t, 0)
    decreases |tags|
  {
    if tags != [] {
      var n := |tags| - 1;
      if x in AllMatches(text, tags[..n]) {
        AllMatchesSound(text, tags[..n], x);
        var t :| t in tags[..n] && x in FindAll(text, t, 0);
        assert t in tags;
      } else {
        assert tags[n] in tags;
      }
    }
  }

  lemma {:induction false} AllMatchesComplete(text: string, tags: seq<string>, t: string, x: string)
    requires t in tags && x in FindAll(text, t, 0)
    ensures x in AllMatches(text, tags)
    decreases |tags|
  {
    var n := |tags| - 1;
    if t != tags[n] {
      assert t in tags[..n];
      AllMatchesComplete(text, tags[..n], t, x);
    }
  }

  /** A flag is reported exactly when one of the six patterns finds it. */
  lemma ExtractFlagsMembership(text: string, x: string)
    ensures x in ExtractFlags(text) <==> exists t :: t in Tags && x in FindAll(text, t, 0)
  {
    if x in AllMatches(text, Tags) {
      AllMatchesSound(text, Tags, x);
    }
    if exists t :: t in Tags && x in FindAll(text, t, 0) {
      var t :| t in Tags && x in FindAll(text, t, 0);
      AllMatchesComplete(text, Tags, t, x);
    }
  }

  /** A reported flag occurs in the text and has the shape of one of the patterns. */
  lemma FlagSound(text: string, x: string)
    requires x in ExtractFlags(text)
    ensures exists lo :: OccursAt(text, x, lo)
    ensures exists t :: t in Tags && FlagShaped(x, t)
  {
    ExtractFlagsMembership(text, x);
    var t :| t in Tags && x in FindAll(text, t, 0);
    var lo := FindAllSound(text, t, 0, x);
  }

  /** No flag is reported twice. */
  lemma FlagsDistinct(text: string)
    ensures forall i, j :: 0 <= i < j < |ExtractFlags(text)| ==> ExtractFlags(text)[i] != ExtractFlags(text)[j]
  {
  }

  /** A flag-shaped substring for one of the tags guarantees that some flag is reported. */
  lemma SomeFlagFound(text: string, t: string, lo: nat, e: nat)
    requires t in Tags && lo <= e <= |text| && FlagShaped(text[lo..e], t)
    ensures ExtractFlags(text) != []
  {
    MatchAtComplete(text, t, lo, e);
    FindAllNonEmpty(text, t, 0, lo);
    var x := FindAll(text, t, 0)[0];
    ExtractFlagsMembership(text, x);
  }

  /** A response that is itself a flag reports that flag. */
  lemma WholeTextIsFlag(text: string, t: string)
    requires t in Tags && FlagShaped(text, t)
    ensures text in ExtractFlags(text)
  {
    assert text[0..|text|] == text;
    MatchAtComplete(text, t, 0, |text|);
    assert FindAll(text, t, 0) == [text] + FindAll(text, t, |text|);
    ExtractFlagsMembership(text, text);
  }

  /** The running example: the response `...flag{abc_123}...` reports exactly `flag{abc_123}`. */
  lemma ExampleFlag()
    ensures ExtractFlags("...flag{abc_123}...") == ["flag{abc_123}"]
  {
    var text, x := "...flag{abc_123}...", "flag{abc_123}";
    assert text[3..16] == x;
    assert Lower(x[..4]) == Lower("flag");
    SomeFlagFound(text, "flag", 3, 16);
    var m := AllMatches(text, Tags);
    forall k | 0 <= k < |m| ensures m[k] == x {
      var y := m[k];
      AllMatchesSound(text, Tags, y);
      var t :| t in Tags && y in FindAll(text, t, 0);
      var lo := FindAllSound(text, t, 0, y);
      ExampleOnlyFlag(y, lo, t);
    }
    DedupAllEqual(m, x);
  }

  /** Removing duplicates from a non-empty run of one string leaves that string once. */
  lemma {:induction false} DedupAllEqual(s: seq<string>, x: string)
    requires s != [] && forall k :: 0 <= k < |s| ==> s[k] == x
    ensures Dedup(s) == [x]
    decreases |s|
  {
    var init := s[..|s| - 1];
    if init != [] {
      DedupAllEqual(init, x);
    }
  }

  /** In the running example, every flag-shaped substring for one of the tags is `flag{abc_123}`. */
  lemma ExampleOnlyFlag(y: string, lo: nat, t: string)
    requires OccursAt("...flag{abc_123}...", y, lo)
    requires t in Tags && FlagShaped(y, t)
    ensures y == "...flag{abc_123}..."[3..16]
  {
    var text := "...flag{abc_123}...";
    var n := |t|;
    OccursAtIndex(text, y, lo, n);
    OccursAtIndex(text, y, lo, |y| - 1);
    ExampleBraces(lo + n, lo + |y| - 1);
    TagsLength(t);
    LowerFirst(y[..n], t);
    OccursAtIndex(text, y, lo, 0);
    ExampleTag(t);
  }

  /** Character k of a substring at `lo` is character lo + k of the text. */
  lemma OccursAtIndex(text: string, y: string, lo: nat, k: nat)
    requires OccursAt(text, y, lo) && k < |y|
    ensures text[lo + k] == y[k]
  {
    assert text[lo..lo + |y|][k] == text[lo + k];
  }

  /** Every tag is three to six characters long. */
  lemma TagsLength(t: string)
    requires t in Tags
    ensures 3 <= |t| <= 6
  {
  }

  /** Strings equal after lowering have equal first characters after lowering. */
  lemma LowerFirst(a: string, b: string)
    requires a != [] && Lower(a) == Lower(b)
    ensures LowerChar(a[0]) == LowerChar(b[0])
  {
    assert LowerChar(Lower(a)[0]) == LowerChar(a[0]);
  }

  /** Of the six tags, only flag and FLAG fit in front of the example's brace. */
  lemma ExampleTag(t: string)
    requires t in Tags && 3 <= |t| <= 6 && LowerChar(t[0]) == LowerChar("...flag{abc_123}..."[7 - |t|])
    ensures |t| == 4
  {
  }

  /** The example's only braces are at offsets 7 and 15. */
  lemma ExampleBraces(i: nat, j: nat)
    requires i < 19 && "...flag{abc_123}..."[i] == '{'
    requires j < 19 && "...flag{abc_123}..."[j] == '}'
    ensures i == 7 && j == 15
  {
  }

  /** No opening brace, no flags. */
  lemma NoBraceNoFlags(text: string)
    requires forall k :: 0 <= k < |text| ==> text[k] != '{'
    ensures ExtractFlags(text) == []
  {
    var r := ExtractFlags(text);
    if r != [] {
      ExtractFlagsMembership(text, r[0]);
      var t :| t in Tags && r[0] in FindAll(text, t, 0);
      NoBraceNoMatch(text, t, 0);
      assert false;
    }
  }

  /** `extract_flags`: one `findall` per pattern, extended in pattern order, then duplicates dropped. */
  method CollectFlags(text: string) returns (r: seq<string>)
    ensures r == ExtractFlags(text)
  {
    var found: seq<string> := [];
    var i := 0;
    while i < |Tags|
      invariant 0 <= i <= |Tags|
      invariant found == AllMatches(text, Tags[..i])
    {
      assert Tags[..i + 1][..i] == Tags[..i];
      found := found + FindAll(text, Tags[i], 0);
      i := i + 1;
    }
    assert Tags[..i] == Tags;
    r := Dedup(found);
  }
}
