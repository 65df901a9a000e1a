/**
 * The response classifier (`BruteEngine.check_success`): an ordered list of
 * rules, the first that fires decides. Failure keywords veto; then success
 * keywords, the success regular expression, the exact length, the excluded
 * length, the status code and finally the smart length-deviation rule.
 */
module Classifier {
  import opened Wrappers
  import opened Text

  /** The success criteria of the configuration. */
  datatype Criteria = Criteria(
    failKeywords: seq<string>,
    successKeywords: seq<string>,
    successRegex: string,
    successLength: Option<int>,
    successLengthNot: Option<int>,
    successStatus: Option<int>,
    smartMode: bool)

  /**
   * `re.search(pattern, text, re.I)`, supplied from outside: `Some(found)`,
   * or `None` when the pattern does not compile and `re` raises.
   */
  type RegexSearch = (string, string) -> Option<bool>

  /** Some keyword, lower-cased, is a substring of the lower-cased text (an empty keyword always is). */
  predicate AnyKeyword(keywords: seq<string>, lowered: string) {
    exists i :: 0 <= i < |keywords| && Contains(lowered, Lower(keywords[i]))
  }

  /** `diff > max(50, baseline * 0.1)` with `diff = abs(length - baseline)`, on exact reals. */
  predicate Deviates(length: int, baseline: int) {
    var diff := if length >= baseline then length - baseline else baseline - length;
    var tenth := (baseline as real) * 0.1;
    var threshold := if 50.0 >= tenth then 50.0 else tenth;
    (diff as real) > threshold
  }

  /** The rules after the regular expression: length, excluded length, status, smart mode. */
  predicate LaterRuleFires(cr: Criteria, length: int, status: int, baseline: Option<int>) {
    || (cr.successLength.Some? && length == cr.successLength.value)
    || (cr.successLengthNot.Some? && length != cr.successLengthNot.value)
    || (cr.successStatus.Some? && status == cr.successStatus.value)
    || (cr.smartMode && baseline.Some? && Deviates(length, baseline.value))
  }

  /**
   * The verdict on one response: `Some(success)`, or `None` when the
   * success regex is consulted and raises.
   */
  function Verdict(cr: Criteria, search: RegexSearch, text: string, length: int, status: int, baseline: Option<int>): Option<bool> {
    var lowered := Lower(text);
    if AnyKeyword(cr.failKeywords, lowered) then Some(false)
    else if AnyKeyword(cr.successKeywords, lowered) then Some(true)
    else if cr.successRegex != [] && search(cr.successRegex, text) != Some(false) then search(cr.successRegex, text)
    else Some(LaterRuleFires(cr, length, status, baseline))
  }

  /** A failure keyword vetoes every success rule. */
  lemma FailKeywordWins(cr: Criteria, search: RegexSearch, text: string, length: int, status: int, baseline: Option<int>, i: nat)
    requires i < |cr.failKeywords| && Contains(Lower(text), Lower(cr.failKeywords[i]))
    ensures Verdict(cr, search, text, length, status, baseline) == Some(false)
  {
  }

  /** A success keyword wins over every later rule, and the regex is then never consulted. */
  lemma SuccessKeywordNext(cr: Criteria, search: RegexSearch, text: string, length: int, status: int, baseline: Option<int>, i: nat)
    requires i < |cr.successKeywords| && Contains(Lower(text), Lower(cr.successKeywords[i]))
    ensures Verdict(cr, search, text, length, status, baseline) == Some(!AnyKeyword(cr.failKeywords, Lower(text)))
  {
  }

  /** An empty success keyword matches every response no failure keyword vetoes. */
  lemma EmptySuccessKeyword(cr: Criteria, search: RegexSearch, text: string, length: int, status: int, baseline: Option<int>)
    requires [] in cr.successKeywords
    requires forall i :: 0 <= i < |cr.failKeywords| ==> !Contains(Lower(text), Lower(cr.failKeywords[i]))
    ensures Verdict(cr, search, text, length, status, baseline) == Some(true)
  {
    var i :| 0 <= i < |cr.successKeywords| && cr.successKeywords[i] == [];
    assert OccursAt(Lower(text), Lower(cr.successKeywords[i]), 0);
  }

  /**
   * The classifier characterised: it raises exactly when no keyword decides
   * and the configured regex raises, and it reports success exactly when no
   * failure keyword occurs and some success rule fires before the regex
   * could raise.
   */
  lemma VerdictCharacterised(cr: Criteria, search: RegexSearch, text: string, length: int, status: int, baseline: Option<int>)
    ensures var v, lowered := Verdict(cr, search, text, length, status, baseline), Lower(text);
            && (v.None? <==> !AnyKeyword(cr.failKeywords, lowered) && !AnyKeyword(cr.successKeywords, lowered)
                             && cr.successRegex != [] && search(cr.successRegex, text).None?)
            && (v == Some(true) <==>
                  !AnyKeyword(cr.failKeywords, lowered)
                  && (|| AnyKeyword(cr.successKeywords, lowered)
                      || (cr.successRegex != [] && search(cr.successRegex, text) == Some(true))
                      || ((cr.successRegex == [] || search(cr.successRegex, text) == Some(false))
                          && LaterRuleFires(cr, length, status, baseline))))
  {
  }

  /** With no criteria configured every response is a failure. */
  lemma NoCriteriaNoSuccess(search: RegexSearch, text: string, length: int, status: int, baseline: Option<int>)
    ensures Verdict(Criteria([], [], [], None, None, None, false), search, text, length, status, baseline) == Some(false)
  {
  }

  /** A configured status code alone: success exactly on that status. */
  lemma StatusOnly(search: RegexSearch, text: string, length: int, status: int, want: int, baseline: Option<int>)
    ensures Verdict(Criteria([], [], [], None, None, Some(want), false), search, text, length, status, baseline) == Some(status == want)
  {
  }

  /** The smart threshold in integers: the deviation exceeds 50 and a tenth of the baseline. */
  lemma DeviatesIff(length: int, baseline: int)
    ensures Deviates(length, baseline) <==>
              var diff := if length >= baseline then length - baseline else baseline - length;
              diff > 50 && 10 * diff > baseline
  {
    var diff := if length >= baseline then length - baseline else baseline - length;
    var tenth := (baseline as real) * 0.1;
    assert 10.0 * tenth == baseline as real;
    if (diff as real) > tenth {
      assert 10.0 * (diff as real) > 10.0 * tenth;
      assert (10 * diff) as real > baseline as real;
    }
    if 10 * diff > baseline {
      assert (10 * diff) as real > baseline as real;
      assert 10.0 * (diff as real) > 10.0 * tenth;
    }
  }

  /** Around a baseline of 100 bytes the threshold is 50: 151 bytes deviate, 149 and 150 do not. */
  lemma SmartAtBaseline100()
    ensures Deviates(151, 100) && !Deviates(150, 100) && !Deviates(149, 100) && Deviates(49, 100)
  {
    DeviatesIff(151, 100);
    DeviatesIff(150, 100);
    DeviatesIff(149, 100);
    DeviatesIff(49, 100);
  }

  /** Around a baseline of 1000 bytes the threshold is a tenth of it: 1101 deviates, 1100 does not. */
  lemma SmartAtBaseline1000()
    ensures Deviates(1101, 1000) && !Deviates(1100, 1000) && Deviates(899, 1000)
  {
    DeviatesIff(1101, 1000);
    DeviatesIff(1100, 1000);
    DeviatesIff(899, 1000);
  }

  /** Smart mode is inert until a baseline exists. */
  lemma SmartNeedsBaseline(cr: Criteria, search: RegexSearch, text: string, length: int, status: int)
    requires cr.successLength.None? && cr.successLengthNot.None? && cr.successStatus.None?
    requires cr.successRegex == [] && forall i :: 0 <= i < |cr.successKeywords| ==> !Contains(Lower(text), Lower(cr.successKeywords[i]))
    ensures Verdict(cr, search, text, length, status, None) == Some(false)
  {
  }

  /** `check_success`: the keyword loops return early; the rules after them run in order. */
  method CheckSuccess(cr: Criteria, search: RegexSearch, text: string, length: int, status: int, baseline: Option<int>)
    returns (r: Option<bool>)
    ensures r == Verdict(cr, search, text, length, status, baseline)
  {
    var lowered := Lower(text);
    var i := 0;
    while i < |cr.failKeywords|
      invariant 0 <= i <= |cr.failKeywords|
      invariant forall j :: 0 <= j < i ==> !Contains(lowered, Lower(cr.failKeywords[j]))
    {
      if Contains(lowered, Lower(cr.failKeywords[i])) {
        return Some(false);
      }
      i := i + 1;
    }
    i := 0;
    while i < |cr.successKeywords|
      invariant 0 <= i <= |cr.successKeywords|
      invariant forall j :: 0 <= j < i ==> !Contains(lowered, Lower(cr.successKeywords[j]))
    {
      if Contains(lowered, Lower(cr.successKeywords[i])) {
        return Some(true);
      }
      i := i + 1;
    }
    if cr.successRegex != [] {
      var found := search(cr.successRegex, text);
      if found.None? {
        return None;
      }
      if found.value {
        return Some(true);
      }
    }
    if cr.successLength.Some? && length == cr.successLength.value {
      return Some(true);
    }
    if cr.successLengthNot.Some? && length != cr.successLengthNot.value {
      return Some(true);
    }
    if cr.successStatus.Some? && status == cr.successStatus.value {
      return Some(true);
    }
    if cr.smartMode && baseline.Some? {
      var diff := if length >= baseline.value then length - baseline.value else baseline.value - length;
      var tenth := (baseline.value as real) * 0.1;
      var threshold := if 50.0 >= tenth then 50.0 else tenth;
      if (diff as real) > threshold {
        return Some(true);
      }
    }
    return Some(false);
  }
}
