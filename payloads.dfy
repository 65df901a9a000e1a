/**
 * The payload space generator (`BruteEngine.generate_payloads`): each slot's
 * raw values are materialised from a numeric range, a dictionary file or an
 * enumerated list, passed through the slot's pipeline, and the surviving
 * candidates of all slots are combined in Cartesian-product order.
 */
module Payloads {
  import opened Wrappers
  import opened Text
  import opened Processors
  import opened Arith

  /** Where a slot's raw values come from (`"type": "range" | "file" | "list"`). */
  datatype Source =
    | RangeSource(start: int, end: int, step: int, format: string)
    | FileSource(path: string)
    | ListSource(values: seq<string>)

  datatype SlotConfig = SlotConfig(name: string, source: Source, processors: seq<Step>)

  datatype Candidate = Candidate(original: string, processed: string)

  datatype Binding = Binding(name: string, candidate: Candidate)

  /** One member of the payload space: a candidate for every slot, in slot order. */
  type Combination = seq<Binding>

  /** The errors `generate_payloads` lets escape. */
  datatype ConfigError =
    | DictionaryNotFound(path: string)  // FileNotFoundError before anything is sent
    | ZeroRangeStep                     // range() with step 0 raises ValueError
    | FormatFailed(format: string)      // str.format raised on the range's format string

  /**
   * What the generator reads from its environment: the library codecs, the
   * `str.format` of format strings other than "{}", and the dictionary files
   * already read as lines (a path not in the map does not exist).
   */
  datatype Inputs = Inputs(
    codecs: Codecs,
    format: (string, int) -> Option<string>,
    files: map<string, seq<string>>)

  // ---------------------------------------------------------------------------
  // Range slots

  /** Python's `range(start, stop, step)` for a non-zero step. */
  function PyRange(start: int, stop: int, step: int): seq<int>
    requires step != 0
    decreases if step > 0 then stop - start else start - stop
  {
    if (step > 0 && start < stop) || (step < 0 && start > stop) then [start] + PyRange(start + step, stop, step)
    else []
  }

  /** max(0, (end - start) / step + 1): the number of values of a range slot. */
  function RangeCount(start: int, end: int, step: int): nat
    requires step > 0
  {
    if (end - start) / step + 1 > 0 then (end - start) / step + 1 else 0
  }

  lemma {:induction false} RangeLength(start: int, end: int, step: int)
    requires step > 0
    ensures |PyRange(start, end + 1, step)| == RangeCount(start, end, step)
    decreases end - start
  {
    var a := end - start;
    if start <= end {
      RangeLength(start + step, end, step);
      DivModStep(a, step);
      DivSign(a, step);
      assert end - (start + step) == a - step;
      assert RangeCount(start + step, end, step) == a / step;
    } else {
      DivSign(a, step);
    }
  }

  lemma {:induction false} RangeElement(start: int, end: int, step: int, k: nat)
    requires step > 0 && k < |PyRange(start, end + 1, step)|
    ensures PyRange(start, end + 1, step)[k] == start + k * step
    ensures PyRange(start, end + 1, step)[k] <= end
    decreases k
  {
    if k > 0 {
      RangeElement(start + step, end, step, k - 1);
      assert start + step + (k - 1) * step == start + k * step;
    }
  }

  /**
   * With a positive step the range slot yields max(0, (end-start)/step + 1)
   * values start, start+step, ...: evenly spaced and all at most end, so
   * end is included when it is reached.
   */
  lemma RangeValues(start: int, end: int, step: int)
    requires step > 0
    ensures |PyRange(start, end + 1, step)| == RangeCount(start, end, step)
    ensures var r := PyRange(start, end + 1, step);
            forall k :: 0 <= k < |r| ==> r[k] == start + k * step && r[k] <= end
  {
    RangeLength(start, end, step);
    var r := PyRange(start, end + 1, step);
    forall k | 0 <= k < |r| ensures r[k] == start + k * step && r[k] <= end {
      RangeElement(start, end, step, k);
    }
  }

  /** A range slot contains end exactly when the step lands on it. */
  lemma RangeIncludesEnd(start: int, end: int, step: int)
    requires step > 0 && start <= end
    ensures end in PyRange(start, end + 1, step) <==> (end - start) % step == 0
  {
    var r := PyRange(start, end + 1, step);
    RangeValues(start, end, step);
    var n := (end - start) / step;
    if (end - start) % step == 0 {
      assert end - start == n * step;
      assert r[n] == end;
    }
    if end in r {
      var k :| 0 <= k < |r| && r[k] == end;
      DivModUnique(end - start, step, k, 0);
    }
  }

  /** `fmt.format(i)`: the default "{}" renders `i` in decimal. */
  function FormatValue(env: Inputs, fmt: string, i: int): Option<string> {
    if fmt == "{}" then Some(Decimal(i)) else env.format(fmt, i)
  }

  /** `[fmt.format(i) for i in xs]`; the first failing call aborts. */
  function FormatAll(env: Inputs, fmt: string, xs: seq<int>): (r: Option<seq<string>>)
    ensures r.Some? ==> |r.value| == |xs| && forall k :: 0 <= k < |xs| ==> FormatValue(env, fmt, xs[k]) == Some(r.value[k])
    ensures r.None? ==> exists k :: 0 <= k < |xs| && FormatValue(env, fmt, xs[k]).None?
  {
    if xs == [] then Some([])
    else
      match FormatValue(env, fmt, xs[0])
      case None => None
      case Some(v) =>
        match FormatAll(env, fmt, xs[1..])
        case None => None
        case Some(vs) => Some([v] + vs)
  }

  // ---------------------------------------------------------------------------
  // Dictionary slots

  /** `[line.strip() for line in f if line.strip()]`. */
  function DictionaryLines(lines: seq<string>): (r: seq<string>)
    ensures |r| <= |lines|
    ensures forall k :: 0 <= k < |r| ==> r[k] != [] && !IsSpace(r[k][0]) && !IsSpace(r[k][|r[k]| - 1])
  {
    if lines == [] then []
    else
      var rest := DictionaryLines(lines[..|lines| - 1]);
      var x := Strip(lines[|lines| - 1]);
      if x == [] then rest else rest + [x]
  }

  /** Every line of the file, stripped. */
  function StripEach(lines: seq<string>): (r: seq<string>)
    ensures |r| == |lines|
  {
    if lines == [] then [] else StripEach(lines[..|lines| - 1]) + [Strip(lines[|lines| - 1])]
  }

  lemma {:induction false} StripEachAt(lines: seq<string>, j: nat)
    requires j < |lines|
    ensures StripEach(lines)[j] == Strip(lines[j])
    decreases |lines|
  {
    if j < |lines| - 1 {
      StripEachAt(lines[..|lines| - 1], j);
    }
  }

  /** The positions of the lines that are not blank once stripped, in increasing order. */
  function NonBlankIndices(lines: seq<string>): seq<nat>
    decreases |lines|
  {
    if lines == [] then []
    else
      var rest := NonBlankIndices(lines[..|lines| - 1]);
      if Strip(lines[|lines| - 1]) != [] then rest + [|lines| - 1] else rest
  }

  /** The facts `DictionaryFilter` states about positions, as a predicate on the kept values, positions and stripped lines. */
  predicate FilterOf(ds: seq<string>, idx: seq<nat>, ss: seq<string>) {
    && |ds| == |idx|
    && (forall k :: 0 <= k < |idx| ==> idx[k] < |ss| && ds[k] == ss[idx[k]])
    && (forall k, l :: 0 <= k < l < |idx| ==> idx[k] < idx[l])
    && (forall j :: 0 <= j < |ss| ==> (j in idx <==> ss[j] != []))
  }

  /** Appending one stripped line keeps the filter: it is kept exactly when it is not empty. */
  lemma FilterSnoc(ds: seq<string>, idx: seq<nat>, ss: seq<string>, y: string)
    requires FilterOf(ds, idx, ss)
    ensures FilterOf(if y == [] then ds else ds + [y], if y == [] then idx else idx + [|ss|], ss + [y])
  {
    if y != [] {
      assert forall k :: 0 <= k < |idx| ==> (idx + [|ss|])[k] == idx[k];
    }
  }

  /**
   * Dictionary reading keeps file order and multiplicity: the values are the
   * stripped lines (`StripEach`) at the kept positions, the kept positions
   * increase, and a line is kept exactly when it is not blank once stripped.
   */
  lemma {:induction false} DictionaryFilter(lines: seq<string>)
    ensures |DictionaryLines(lines)| == |NonBlankIndices(lines)|
    ensures var ds, idx := DictionaryLines(lines), NonBlankIndices(lines);
            forall k :: 0 <= k < |idx| ==> idx[k] < |lines| && ds[k] == StripEach(lines)[idx[k]]
    ensures var idx := NonBlankIndices(lines); forall k, l :: 0 <= k < l < |idx| ==> idx[k] < idx[l]
    ensures forall j :: 0 <= j < |lines| ==> (j in NonBlankIndices(lines) <==> StripEach(lines)[j] != [])
  {
    DictionaryFilterOf(lines);
  }

  lemma {:induction false} DictionaryFilterOf(lines: seq<string>)
    ensures FilterOf(DictionaryLines(lines), NonBlankIndices(lines), StripEach(lines))
    decreases |lines|
  {
    if lines != [] {
      var init := lines[..|lines| - 1];
      DictionaryFilterOf(init);
      var y := Strip(lines[|lines| - 1]);
      var rest, ri, si := DictionaryLines(init), NonBlankIndices(init), StripEach(init);
      FilterSnoc(rest, ri, si, y);
      assert DictionaryLines(lines) == if y == [] then rest else rest + [y];
      assert NonBlankIndices(lines) == if y == [] then ri else ri + [|si|];
      assert StripEach(lines) == si + [y];
    }
  }

  /** A dictionary value is exactly a stripped line that is not blank. */
  lemma {:induction false} DictionaryMembership(lines: seq<string>, x: string)
    ensures x in DictionaryLines(lines) <==> x != [] && x in StripEach(lines)
    decreases |lines|
  {
    if lines != [] {
      var init := lines[..|lines| - 1];
      var y := Strip(lines[|lines| - 1]);
      DictionaryMembership(init, x);
      var rest := DictionaryLines(init);
      assert DictionaryLines(lines) == if y == [] then rest else rest + [y];
      assert StripEach(lines) == StripEach(init) + [y];
      if y != [] {
        assert x in rest + [y] <==> x in rest || x == y;
      }
    }
  }

  // ---------------------------------------------------------------------------
  // Raw values and candidates

  /** The raw values of a slot, or the error that stops the generator. */
  function RawValues(env: Inputs, src: Source): Result<seq<string>, ConfigError> {
    match src
    case RangeSource(start, end, step, fmt) =>
      if step == 0 then Err(ZeroRangeStep)
      else
        (match FormatAll(env, fmt, PyRange(start, end + 1, step))
         case None => Err(FormatFailed(fmt))
         case Some(vs) => Ok(vs))
    case FileSource(path) =>
      if path !in env.files then Err(DictionaryNotFound(path)) else Ok(DictionaryLines(env.files[path]))
    case ListSource(values) => Ok(values)
  }

  /** The raw values that survive the pipeline, each with its processed form. */
  function Candidates(c: Codecs, raws: seq<string>, steps: seq<Step>): seq<Candidate>
    decreases |raws|
  {
    if raws == [] then []
    else
      var rest := Candidates(c, raws[..|raws| - 1], steps);
      match Pipeline(c, raws[|raws| - 1], steps)
      case None => rest
      case Some(p) => rest + [Candidate(raws[|raws| - 1], p)]
  }

  /** The positions of the raw values whose pipeline succeeds, in increasing order. */
  function KeptIndices(c: Codecs, raws: seq<string>, steps: seq<Step>): seq<nat>
    decreases |raws|
  {
    if raws == [] then []
    else
      var rest := KeptIndices(c, raws[..|raws| - 1], steps);
      if Pipeline(c, raws[|raws| - 1], steps).Some? then rest + [|raws| - 1] else rest
  }

  /**
   * Candidate filtering: the k-th candidate is the raw value at the k-th kept
   * position with `original` the raw value and `processed` its pipeline
   * result; the kept positions increase (raw order is preserved), and a
   * position is kept exactly when its pipeline does not fail.
   */
  lemma {:induction false} CandidatesFilter(c: Codecs, raws: seq<string>, steps: seq<Step>)
    ensures var cs, idx := Candidates(c, raws, steps), KeptIndices(c, raws, steps);
            && |cs| == |idx|
            && (forall k :: 0 <= k < |idx| ==>
                  && idx[k] < |raws|
                  && Pipeline(c, raws[idx[k]], steps).Some?
                  && cs[k] == Candidate(raws[idx[k]], Pipeline(c, raws[idx[k]], steps).value))
            && (forall k, l :: 0 <= k < l < |idx| ==> idx[k] < idx[l])
            && (forall j :: 0 <= j < |raws| ==> (j in idx <==> Pipeline(c, raws[j], steps).Some?))
    decreases |raws|
  {
    if raws != [] {
      var init := raws[..|raws| - 1];
      CandidatesFilter(c, init, steps);
      assert forall j :: 0 <= j < |init| ==> init[j] == raws[j];
    }
  }

  /** Membership in both directions: a candidate is kept iff its raw value is a slot value whose pipeline gives its processed value. */
  lemma CandidateMembership(c: Codecs, raws: seq<string>, steps: seq<Step>, x: Candidate)
    ensures x in Candidates(c, raws, steps) <==> x.original in raws && Pipeline(c, x.original, steps) == Some(x.processed)
  {
    CandidatesFilter(c, raws, steps);
    var cs, idx := Candidates(c, raws, steps), KeptIndices(c, raws, steps);
    if x.original in raws && Pipeline(c, x.original, steps) == Some(x.processed) {
      var j :| 0 <= j < |raws| && raws[j] == x.original;
      assert j in idx;
      var k :| 0 <= k < |idx| && idx[k] == j;
      assert cs[k] == x;
    }
  }

  /** With no processors every raw value is kept and processed equals original. */
  lemma {:induction false} NoProcessorsKeepsAll(c: Codecs, raws: seq<string>)
    ensures |Candidates(c, raws, [])| == |raws|
    ensures forall k :: 0 <= k < |raws| ==> Candidates(c, raws, [])[k] == Candidate(raws[k], raws[k])
    decreases |raws|
  {
    if raws != [] {
      NoProcessorsKeepsAll(c, raws[..|raws| - 1]);
    }
  }

  // ---------------------------------------------------------------------------
  // Cartesian product (`itertools.product`)

  /** `[t + [x] for x in l]`. */
  function Row<T>(t: seq<T>, l: seq<T>): (r: seq<seq<T>>)
    ensures |r| == |l|
    ensures forall j :: 0 <= j < |l| ==> r[j] == t + [l[j]]
  {
    if l == [] then [] else [t + [l[0]]] + Row(t, l[1..])
  }

  /** `[t + [x] for t in ts for x in l]`: one more slot, varying fastest. */
  function Extend<T>(ts: seq<seq<T>>, l: seq<T>): (r: seq<seq<T>>)
    ensures |r| == |ts| * |l|
  {
    if ts == [] then []
    else
      var r := Row(ts[0], l) + Extend(ts[1..], l);
      assert |ts| * |l| == |l| + (|ts| - 1) * |l|;
      r
  }

  /** `itertools.product(*ls)`, built slot by slot as the itertools documentation does. */
  function Product<T>(ls: seq<seq<T>>): seq<seq<T>>
    decreases |ls|
  {
    if ls == [] then [[]] else Extend(Product(ls[..|ls| - 1]), ls[|ls| - 1])
  }

  /** The product of the slot sizes. */
  function SizeProduct<T>(ls: seq<seq<T>>): nat
    decreases |ls|
  {
    if ls == [] then 1 else SizeProduct(ls[..|ls| - 1]) * |ls[|ls| - 1]|
  }

  lemma {:induction false} ExtendAt<T>(ts: seq<seq<T>>, l: seq<T>, k: nat)
    requires k < |ts| * |l|
    ensures |l| > 0 && k / |l| < |ts|
    ensures Extend(ts, l)[k] == ts[k / |l|] + [l[k % |l|]]
    decreases |ts|
  {
    var m := |l|;
    MulPositive(|ts|, m);
    if k < m {
      DivModUnique(k, m, 0, k);
      ExtendHead(ts, l, k);
    } else {
      assert |ts| * m == m + (|ts| - 1) * m;
      ExtendAt(ts[1..], l, k - m);
      DivModStep(k, m);
      ExtendTail(ts, l, k);
      assert ts[1..][(k - m) / m] == ts[k / m];
    }
  }

  lemma ExtendHead<T>(ts: seq<seq<T>>, l: seq<T>, k: nat)
    requires ts != [] && k < |l|
    ensures k < |Extend(ts, l)| && Extend(ts, l)[k] == ts[0] + [l[k]]
  {
    assert Extend(ts, l) == Row(ts[0], l) + Extend(ts[1..], l);
  }

  lemma ExtendTail<T>(ts: seq<seq<T>>, l: seq<T>, k: nat)
    requires ts != [] && |l| <= k < |Extend(ts, l)|
    ensures Extend(ts, l)[k] == Extend(ts[1..], l)[k - |l|]
  {
    assert Extend(ts, l) == Row(ts[0], l) + Extend(ts[1..], l);
  }

  /** The number of combinations is the product of the slot sizes. */
  lemma {:induction false} ProductSize<T>(ls: seq<seq<T>>)
    ensures |Product(ls)| == SizeProduct(ls)
    decreases |ls|
  {
    if ls != [] {
      ProductSize(ls[..|ls| - 1]);
    }
  }

  /**
   * The last slot varies fastest: combination k of ls + [l] is combination
   * k / |l| of ls followed by the (k % |l|)-th value of l.
   */
  lemma LastSlotFastest<T>(ls: seq<seq<T>>, l: seq<T>, k: nat)
    requires k < |Product(ls + [l])|
    ensures |l| > 0 && k / |l| < |Product(ls)|
    ensures Product(ls + [l])[k] == Product(ls)[k / |l|] + [l[k % |l|]]
  {
    assert (ls + [l])[..|ls|] == ls;
    ExtendAt(Product(ls), l, k);
  }

  lemma RowMembership<T>(t0: seq<T>, l: seq<T>, t: seq<T>)
    ensures t in Row(t0, l) <==> |t| > 0 && t[..|t| - 1] == t0 && t[|t| - 1] in l
  {
    if t in Row(t0, l) {
      var j :| 0 <= j < |l| && Row(t0, l)[j] == t;
      assert t[..|t| - 1] == t0;
    }
    if |t| > 0 && t[..|t| - 1] == t0 && t[|t| - 1] in l {
      var j :| 0 <= j < |l| && l[j] == t[|t| - 1];
      assert t == t0 + [l[j]];
      assert Row(t0, l)[j] == t;
    }
  }

  lemma {:induction false} ExtendMembership<T>(ts: seq<seq<T>>, l: seq<T>, t: seq<T>)
    ensures t in Extend(ts, l) <==> |t| > 0 && t[..|t| - 1] in ts && t[|t| - 1] in l
    decreases |ts|
  {
    if ts != [] {
      ExtendMembership(ts[1..], l, t);
      RowMembership(ts[0], l, t);
      assert Extend(ts, l) == Row(ts[0], l) + Extend(ts[1..], l);
      assert ts == [ts[0]] + ts[1..];
    }
  }

  /** A sequence is a combination exactly when it picks one value from every slot, in slot order. */
  lemma {:induction false} ProductMembership<T>(ls: seq<seq<T>>, t: seq<T>)
    ensures t in Product(ls) <==> |t| == |ls| && forall i :: 0 <= i < |ls| ==> t[i] in ls[i]
    decreases |ls|
  {
    if ls != [] {
      var n := |ls| - 1;
      ExtendMembership(Product(ls[..n]), ls[n], t);
      if |t| > 0 {
        ProductMembership(ls[..n], t[..|t| - 1]);
        PicksSnoc(ls, t);
      }
    }
  }

  /** `t` picks one value from every slot of `ls`, in slot order. */
  predicate Picks<T(==)>(ls: seq<seq<T>>, t: seq<T>) {
    |t| == |ls| && forall i :: 0 <= i < |ls| ==> t[i] in ls[i]
  }

  /** Picking from every slot is picking from all but the last, then from the last. */
  lemma PicksSnoc<T>(ls: seq<seq<T>>, t: seq<T>)
    requires ls != [] && t != []
    ensures Picks(ls, t) <==> Picks(ls[..|ls| - 1], t[..|t| - 1]) && t[|t| - 1] in ls[|ls| - 1]
  {
    var n := |ls| - 1;
    var t', ls' := t[..|t| - 1], ls[..n];
    if Picks(ls, t) {
      forall i | 0 <= i < n ensures t'[i] in ls'[i] {
        assert t'[i] == t[i] && ls'[i] == ls[i];
      }
    }
    if Picks(ls', t') && t[|t| - 1] in ls[n] {
      forall i | 0 <= i < |ls| ensures t[i] in ls[i] {
        if i < n {
          assert t'[i] == t[i] && ls'[i] == ls[i];
        }
      }
    }
  }

  /** `dict(zip(names, combo))`. */
  function Label(names: seq<string>, combo: seq<Candidate>): (r: Combination)
    requires |names| == |combo|
    ensures |r| == |names|
    ensures forall i :: 0 <= i < |r| ==> r[i] == Binding(names[i], combo[i])
  {
    if names == [] then [] else [Binding(names[0], combo[0])] + Label(names[1..], combo[1..])
  }

  function LabelAll(names: seq<string>, combos: seq<seq<Candidate>>): (r: seq<Combination>)
    requires forall k :: 0 <= k < |combos| ==> |combos[k]| == |names|
    ensures |r| == |combos|
    ensures forall k :: 0 <= k < |r| ==> r[k] == Label(names, combos[k])
  {
    if combos == [] then [] else [Label(names, combos[0])] + LabelAll(names, combos[1..])
  }

  function SlotNames(slots: seq<SlotConfig>): (r: seq<string>)
    ensures |r| == |slots| && forall i :: 0 <= i < |slots| ==> r[i] == slots[i].name
  {
    if slots == [] then [] else [slots[0].name] + SlotNames(slots[1..])
  }

  function Names(combo: Combination): (r: seq<string>)
    ensures |r| == |combo| && forall i :: 0 <= i < |combo| ==> r[i] == combo[i].name
  {
    if combo == [] then [] else [combo[0].name] + Names(combo[1..])
  }

  // ---------------------------------------------------------------------------
  // generate_payloads

  /** Every slot's surviving candidates, slot by slot; the first slot that raises decides the error. */
  function Materialise(env: Inputs, slots: seq<SlotConfig>): Result<seq<seq<Candidate>>, ConfigError>
    decreases |slots|
  {
    if slots == [] then Ok([])
    else
      match Materialise(env, slots[..|slots| - 1])
      case Err(e) => Err(e)
      case Ok(lists) =>
        var s := slots[|slots| - 1];
        match RawValues(env, s.source)
        case Err(e) => Err(e)
        case Ok(raws) => Ok(lists + [Candidates(env.codecs, raws, s.processors)])
  }

  /** The payload space: every combination of the slots' candidates, last slot fastest. */
  function Generate(env: Inputs, slots: seq<SlotConfig>): Result<seq<Combination>, ConfigError> {
    match Materialise(env, slots)
    case Err(e) => Err(e)
    case Ok(lists) =>
      MaterialiseShape(env, slots);
      ProductShape(lists);
      Ok(LabelAll(SlotNames(slots), Product(lists)))
  }

  lemma MaterialiseShape(env: Inputs, slots: seq<SlotConfig>)
    ensures Materialise(env, slots).Ok? ==>
              var lists := Materialise(env, slots).value;
              && |lists| == |slots|
              && forall i :: 0 <= i < |slots| ==>
                   RawValues(env, slots[i].source).Ok?
                   && lists[i] == Candidates(env.codecs, RawValues(env, slots[i].source).value, slots[i].processors)
    ensures Materialise(env, slots).Err? <==> exists i :: 0 <= i < |slots| && RawValues(env, slots[i].source).Err?
    ensures Materialise(env, slots).Err? ==>
              exists i :: 0 <= i < |slots| && RawValues(env, slots[i].source) == Err(Materialise(env, slots).error)
                          && forall j :: 0 <= j < i ==> RawValues(env, slots[j].source).Ok?
  {
    MaterialiseOk(env, slots);
    MaterialiseErr(env, slots);
  }

  /** A successful materialisation holds, slot by slot, the surviving candidates of that slot. */
  lemma {:induction false} MaterialiseOk(env: Inputs, slots: seq<SlotConfig>)
    ensures Materialise(env, slots).Ok? ==>
              var lists := Materialise(env, slots).value;
              && |lists| == |slots|
              && forall i :: 0 <= i < |slots| ==>
                   RawValues(env, slots[i].source).Ok?
                   && lists[i] == Candidates(env.codecs, RawValues(env, slots[i].source).value, slots[i].processors)
    decreases |slots|
  {
    if slots != [] && Materialise(env, slots).Ok? {
      var n := |slots| - 1;
      var init := slots[..n];
      MaterialiseOk(env, init);
      var lists := Materialise(env, init).value;
      var raws := RawValues(env, slots[n].source).value;
      var all := Materialise(env, slots).value;
      assert all == lists + [Candidates(env.codecs, raws, slots[n].processors)];
      forall i | 0 <= i < |slots|
        ensures RawValues(env, slots[i].source).Ok?
        ensures all[i] == Candidates(env.codecs, RawValues(env, slots[i].source).value, slots[i].processors)
      {
        if i < n {
          assert slots[i] == init[i] && all[i] == lists[i];
        }
      }
    }
  }

  /** A failed materialisation reports the error of the first slot whose values cannot be read. */
  lemma {:induction false} MaterialiseErr(env: Inputs, slots: seq<SlotConfig>)
    ensures Materialise(env, slots).Err? ==>
              exists i :: 0 <= i < |slots| && RawValues(env, slots[i].source) == Err(Materialise(env, slots).error)
                          && forall j :: 0 <= j < i ==> RawValues(env, slots[j].source).Ok?
    decreases |slots|
  {
    if slots != [] && Materialise(env, slots).Err? {
      var n := |slots| - 1;
      var init := slots[..n];
      if Materialise(env, init).Err? {
        MaterialiseErr(env, init);
        var i :| 0 <= i < n && RawValues(env, init[i].source) == Err(Materialise(env, init).error)
                 && forall j :: 0 <= j < i ==> RawValues(env, init[j].source).Ok?;
        assert slots[i] == init[i];
        forall j | 0 <= j < i ensures RawValues(env, slots[j].source).Ok? {
          assert slots[j] == init[j];
        }
      } else {
        MaterialiseOk(env, init);
        forall j | 0 <= j < n ensures RawValues(env, slots[j].source).Ok? {
          assert slots[j] == init[j];
        }
        assert RawValues(env, slots[n].source) == Err(Materialise(env, slots).error);
      }
    }
  }

  lemma {:induction false} ProductShape<T>(ls: seq<seq<T>>)
    ensures forall k :: 0 <= k < |Product(ls)| ==> |Product(ls)[k]| == |ls|
    decreases |ls|
  {
    if ls != [] {
      var n := |ls| - 1;
      ProductShape(ls[..n]);
      ExtendShape(Product(ls[..n]), ls[n], n);
    }
  }

  /** Extending sequences of one length gives sequences one longer. */
  lemma {:induction false} ExtendShape<T>(ts: seq<seq<T>>, l: seq<T>, n: nat)
    requires forall k :: 0 <= k < |ts| ==> |ts[k]| == n
    ensures forall k :: 0 <= k < |Extend(ts, l)| ==> |Extend(ts, l)[k]| == n + 1
    decreases |ts|
  {
    if ts != [] {
      ExtendShape(ts[1..], l, n);
      var r, e := Row(ts[0], l), Extend(ts[1..], l);
      assert Extend(ts, l) == r + e;
      forall k | 0 <= k < |r + e| ensures |(r + e)[k]| == n + 1 {
        if k < |r| {
          assert (r + e)[k] == r[k];
        } else {
          assert (r + e)[k] == e[k - |r|];
        }
      }
    }
  }

  /**
   * The generated space: as many combinations as the product of the slots'
   * surviving counts; every combination names exactly the configured slots,
   * in order, and holds one surviving candidate per slot; no slots at all
   * give one empty combination.
   */
  lemma GenerateShape(env: Inputs, slots: seq<SlotConfig>)
    requires Generate(env, slots).Ok?
    ensures var cs, lists := Generate(env, slots).value, Materialise(env, slots).value;
            && |lists| == |slots|
            && |cs| == SizeProduct(lists)
            && (forall k :: 0 <= k < |cs| ==> |cs[k]| == |slots| && Names(cs[k]) == SlotNames(slots))
            && (forall k, i :: 0 <= k < |cs| && 0 <= i < |slots| ==> cs[k][i].candidate in lists[i])
    ensures slots == [] ==> Generate(env, slots) == Ok([[]])
  {
    var lists := Materialise(env, slots).value;
    MaterialiseShape(env, slots);
    var names := SlotNames(slots);
    LabelledProduct(names, lists);
    assert Generate(env, slots) == Ok(LabelAll(names, Product(lists)));
    if slots == [] {
      var cs := LabelAll(names, Product(lists));
      assert Product(lists) == [[]];
      assert cs[0] == Label([], []) == [];
      assert cs == [[]];
    }
  }

  /** Labelling the product: one combination per element, each naming every slot once and picking from it. */
  lemma LabelledProduct(names: seq<string>, lists: seq<seq<Candidate>>)
    requires |names| == |lists|
    ensures forall k :: 0 <= k < |Product(lists)| ==> |Product(lists)[k]| == |names|
    ensures var cs := LabelAll(names, Product(lists));
            && |cs| == SizeProduct(lists)
            && (forall k :: 0 <= k < |cs| ==> |cs[k]| == |names| && Names(cs[k]) == names)
            && (forall k, i :: 0 <= k < |cs| && 0 <= i < |names| ==> cs[k][i].candidate in lists[i])
  {
    ProductShape(lists);
    ProductSize(lists);
    var ps := Product(lists);
    var cs := LabelAll(names, ps);
    forall k | 0 <= k < |cs| ensures |cs[k]| == |names| && Names(cs[k]) == names {
      assert cs[k] == Label(names, ps[k]);
    }
    forall k, i | 0 <= k < |cs| && 0 <= i < |names| ensures cs[k][i].candidate in lists[i] {
      ProductMembership(lists, ps[k]);
      assert cs[k][i].candidate == ps[k][i];
    }
  }

  /** The generator fails exactly when some slot raises, and then with the first such slot's error. */
  lemma GenerateFails(env: Inputs, slots: seq<SlotConfig>)
    ensures Generate(env, slots).Err? <==> exists i :: 0 <= i < |slots| && RawValues(env, slots[i].source).Err?
    ensures Generate(env, slots).Err? ==>
              exists i :: 0 <= i < |slots| && RawValues(env, slots[i].source) == Err(Generate(env, slots).error)
                          && forall j :: 0 <= j < i ==> RawValues(env, slots[j].source).Ok?
  {
    MaterialiseShape(env, slots);
  }

  /** Fills each slot's candidate list with a loop, then forms the product. */
  method GeneratePayloads(env: Inputs, slots: seq<SlotConfig>) returns (r: Result<seq<Combination>, ConfigError>)
    ensures r == Generate(env, slots)
  {
    var payloadData: seq<seq<Candidate>> := [];
    var n := 0;
    while n < |slots|
      invariant 0 <= n <= |slots|
      invariant Materialise(env, slots[..n]) == Ok(payloadData)
    {
      assert slots[..n + 1][..n] == slots[..n];
      var slot := slots[n];
      var raw := RawValues(env, slot.source);
      if raw.Err? {
        MaterialiseErrSticks(env, slots, n + 1);
        return Err(raw.error);
      }
      var rawValues := raw.value;
      var kept: seq<Candidate> := [];
      var i := 0;
      while i < |rawValues|
        invariant 0 <= i <= |rawValues|
        invariant kept == Candidates(env.codecs, rawValues[..i], slot.processors)
      {
        assert rawValues[..i + 1][..i] == rawValues[..i];
        var processed := ApplyProcessors(env.codecs, rawValues[i], slot.processors);
        if processed.Some? {
          kept := kept + [Candidate(rawValues[i], processed.value)];
        }
        i := i + 1;
      }
      assert rawValues[..i] == rawValues;
      payloadData := payloadData + [kept];
      n := n + 1;
    }
    assert slots[..n] == slots;
    MaterialiseShape(env, slots);
    ProductShape(payloadData);
    r := Ok(LabelAll(SlotNames(slots), Product(payloadData)));
  }

  lemma {:induction false} MaterialiseErrSticks(env: Inputs, slots: seq<SlotConfig>, n: nat)
    requires n <= |slots| && Materialise(env, slots[..n]).Err?
    ensures Materialise(env, slots) == Materialise(env, slots[..n])
    decreases |slots| - n
  {
    if n < |slots| {
      assert slots[..n + 1][..n] == slots[..n];
      MaterialiseErrSticks(env, slots, n + 1);
    } else {
      assert slots[..n] == slots;
    }
  }
}
