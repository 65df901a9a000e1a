/**
 * Request building (`BruteEngine.build_request_data`): every field template
 * of the request body has each slot's placeholder `{name}` replaced by the
 * slot's processed value, slot after slot in the payload's order.
 */
module Requests {
  import opened Wrappers
  import opened Text
  import opened Payloads

  /** The placeholder of slot `name`: `"{" + name + "}"`. */
  function Placeholder(name: string): (r: string)
    ensures |r| == |name| + 2 && r[0] == '{' && r[|r| - 1] == '}' && r[1..|r| - 1] == name
  {
    "{" + name + "}"
  }

  /** The value of one field: the template after the replacements of every binding, in order. */
  function Substitute(template: string, payload: Combination): string
    decreases |payload|
  {
    if payload == [] then template
    else
      var b := payload[|payload| - 1];
      ReplaceAll(Substitute(template, payload[..|payload| - 1]), Placeholder(b.name), b.candidate.processed)
  }

  /** The replacements happen one slot at a time: substituting `p + q` is substituting `q` into the result of `p`. */
  lemma {:induction false} SubstituteAppend(template: string, p: Combination, q: Combination)
    ensures Substitute(template, p + q) == Substitute(Substitute(template, p), q)
    decreases |q|
  {
    if q == [] {
      assert p + q == p;
    } else {
      var n := |q| - 1;
      assert (p + q)[..|p + q| - 1] == p + q[..n];
      SubstituteAppend(template, p, q[..n]);
    }
  }

  /** A template that mentions none of the payload's placeholders is sent unchanged. */
  lemma {:induction false} NoPlaceholderUnchanged(template: string, payload: Combination)
    requires forall i :: 0 <= i < |payload| ==> !Contains(template, Placeholder(payload[i].name))
    ensures Substitute(template, payload) == template
    decreases |payload|
  {
    if payload != [] {
      var n := |payload| - 1;
      NoPlaceholderUnchanged(template, payload[..n]);
      ReplaceAbsent(template, Placeholder(payload[n].name), payload[n].candidate.processed);
    }
  }

  /** A name without braces. */
  predicate NoBraces(x: string) {
    forall m :: 0 <= m < |x| ==> x[m] != '{' && x[m] != '}'
  }

  /** Where a brace-free placeholder occurs: `{` at its start, no other `{` inside, and its `}` is the first one after the start. */
  lemma PlaceholderBraces(s: string, x: string, k: nat)
    requires NoBraces(x) && OccursAt(s, Placeholder(x), k)
    ensures s[k] == '{'
    ensures forall m :: k < m < k + |x| + 2 ==> s[m] != '{'
    ensures FindFrom(s, "}", k + 1) == Some(k + |x| + 1)
  {
    var ph := Placeholder(x);
    assert forall m :: k <= m < k + |x| + 2 ==> s[m] == ph[m - k];
    assert forall m :: 1 <= m <= |x| ==> ph[m] == x[m - 1] by {
      assert ph[1..|ph| - 1] == x;
    }
    FirstBraceAt(s, k + 1, k + |x| + 1);
  }

  /** A `}` at `e` with none from `lo` up to it is what `s.find("}", lo)` finds. */
  lemma FirstBraceAt(s: string, lo: nat, e: nat)
    requires lo <= e < |s| && s[e] == '}'
    requires forall m :: lo <= m < e ==> s[m] != '}'
    ensures FindFrom(s, "}", lo) == Some(e)
  {
    assert OccursAt(s, "}", e) by {
      assert s[e..e + 1] == "}";
    }
    forall m | lo <= m < e ensures !OccursAt(s, "}", m) {
      assert s[m..m + 1] == [s[m]];
    }
    var f := FindFrom(s, "}", lo);
    assert f.Some? && f.value <= e;
    assert s[f.value..f.value + 1] == "}";
  }

  /** Two brace-free placeholders at the same offset have the same name. */
  lemma PlaceholderAtSame(s: string, z: string, n: string, k: nat, j: nat)
    requires NoBraces(z) && NoBraces(n)
    requires OccursAt(s, Placeholder(z), k) && OccursAt(s, Placeholder(n), j)
    ensures k == j ==> z == n
  {
    if k == j {
      PlaceholderBraces(s, z, k);
      PlaceholderBraces(s, n, j);
      assert Placeholder(z) == s[k..k + |z| + 2] == Placeholder(n);
      assert z == Placeholder(z)[1..|z| + 1];
    }
  }

  /** Brace-free placeholders of different names never overlap. */
  lemma PlaceholdersApart(s: string, z: string, n: string, k: nat, j: nat)
    requires NoBraces(z) && NoBraces(n) && z != n
    requires OccursAt(s, Placeholder(z), k) && OccursAt(s, Placeholder(n), j)
    ensures j + |Placeholder(n)| <= k || k + |Placeholder(z)| <= j
  {
    PlaceholderBraces(s, z, k);
    PlaceholderBraces(s, n, j);
    PlaceholderAtSame(s, z, n, k, j);
  }

  /**
   * The placeholder of a slot the payload does not have survives
   * substitution, when neither it nor the payload's names contain braces:
   * `"{USER}:{TOKEN}"` with only USER substituted still holds `{TOKEN}`.
   */
  lemma AbsentPlaceholderKept(template: string, payload: Combination, z: string)
    requires Contains(template, Placeholder(z)) && NoBraces(z)
    requires forall i :: 0 <= i < |payload| ==> payload[i].name != z && NoBraces(payload[i].name)
    ensures Contains(Substitute(template, payload), Placeholder(z))
  {
    ContainsIff(template, Placeholder(z));
    var k :| OccursAt(template, Placeholder(z), k);
    var k' := AbsentPlaceholderAt(template, payload, z, k);
    ContainsIff(Substitute(template, payload), Placeholder(z));
  }

  lemma {:induction false} AbsentPlaceholderAt(template: string, payload: Combination, z: string, k: nat) returns (k': nat)
    requires OccursAt(template, Placeholder(z), k) && NoBraces(z)
    requires forall i :: 0 <= i < |payload| ==> payload[i].name != z && NoBraces(payload[i].name)
    ensures OccursAt(Substitute(template, payload), Placeholder(z), k')
    decreases |payload|
  {
    if payload == [] {
      k' := k;
    } else {
      var n := |payload| - 1;
      var init := payload[..n];
      assert forall i :: 0 <= i < n ==> init[i] == payload[i];
      var j := AbsentPlaceholderAt(template, init, z, k);
      var s := Substitute(template, init);
      var b := payload[n];
      var q := Placeholder(b.name);
      forall i | OccursAt(s, q, i) ensures i + |q| <= j || j + |Placeholder(z)| <= i {
        PlaceholdersApart(s, z, b.name, j, i);
      }
      k' := ReplaceKeepsOccurrence(s, q, b.candidate.processed, Placeholder(z), j);
    }
  }

  /**
   * Once slot i has been substituted its placeholder stays gone, provided
   * no value substituted from slot i on is empty or shares a character with
   * that placeholder (otherwise the junction of two pieces, or the value
   * itself, can spell the placeholder again).
   */
  lemma {:induction false} PlaceholderRemoved(template: string, payload: Combination, i: nat)
    requires i < |payload|
    requires forall j :: i <= j < |payload| ==>
               payload[j].candidate.processed != [] && CharDisjoint(payload[j].candidate.processed, Placeholder(payload[i].name))
    ensures !Contains(Substitute(template, payload), Placeholder(payload[i].name))
    decreases |payload|
  {
    var n := |payload| - 1;
    var init := payload[..n];
    var p := Placeholder(payload[i].name);
    var w := payload[n].candidate.processed;
    if i < n {
      assert init[i] == payload[i];
      PlaceholderRemoved(template, init, i);
    }
    ReplaceLeavesNoOccurrence(Substitute(template, init), Placeholder(payload[n].name), w, p);
  }

  /**
   * Replacement is not a single pass: a value that itself spells a later
   * slot's placeholder is substituted again when that slot's turn comes.
   */
  lemma CascadingSubstitution()
    ensures Substitute("{A}", [Binding("A", Candidate("1", "{B}")), Binding("B", Candidate("2", "x"))]) == "x"
  {
    var a := Binding("A", Candidate("1", "{B}"));
    var b := Binding("B", Candidate("2", "x"));
    assert [a, b][..1] == [a];
    assert [a][..0] == [];
    assert Placeholder("A") == "{A}";
    assert Placeholder("B") == "{B}";
    assert OccursAt("{A}", "{A}", 0);
    assert ReplaceEach("{A}"[3..], "{A}", "{B}") == [];
    assert ReplaceAll("{A}", "{A}", "{B}") == "{B}";
    assert OccursAt("{B}", "{B}", 0);
    assert ReplaceEach("{B}"[3..], "{B}", "x") == [];
  }

  /** The request body of one payload: every field of the template with the payload substituted. */
  function RequestData(template: map<string, string>, payload: Combination): (data: map<string, string>)
    ensures data.Keys == template.Keys
  {
    map key | key in template :: Substitute(template[key], payload)
  }

  /** Fields without placeholders of the payload keep their template value. */
  lemma StaticFieldsUnchanged(template: map<string, string>, payload: Combination, key: string)
    requires key in template
    requires forall i :: 0 <= i < |payload| ==> !Contains(template[key], Placeholder(payload[i].name))
    ensures RequestData(template, payload)[key] == template[key]
  {
    NoPlaceholderUnchanged(template[key], payload);
  }

  /**
   * `build_request_data`: one entry per field of the template, each the
   * field's template with the payload substituted.
   */
  method BuildRequestData(template: map<string, string>, payload: Combination) returns (data: map<string, string>)
    ensures data.Keys == template.Keys
    ensures forall key :: key in data ==> data[key] == Substitute(template[key], payload)
    ensures data == RequestData(template, payload)
  {
    data := map[];
    var pending := template.Keys;
    while pending != {}
      invariant pending <= template.Keys
      invariant data.Keys == template.Keys - pending
      invariant forall key :: key in data ==> data[key] == Substitute(template[key], payload)
      decreases |pending|
    {
      var key :| key in pending;
      var value := SubstituteLoop(template[key], payload);
      data := data[key := value];
      pending := pending - {key};
    }
  }

  /** The inner loop of `build_request_data`: every placeholder of the payload replaced, in payload order. */
  method SubstituteLoop(value: string, payload: Combination) returns (r: string)
    ensures r == Substitute(value, payload)
  {
    r := value;
    var i := 0;
    while i < |payload|
      invariant 0 <= i <= |payload|
      invariant r == Substitute(value, payload[..i])
    {
      assert payload[..i + 1][..i] == payload[..i];
      r := ReplaceAll(r, Placeholder(payload[i].name), payload[i].candidate.processed);
      i := i + 1;
    }
    assert payload[..i] == payload;
  }
}
