/**
 * The payload transformation steps (`PayloadProcessor`) and the pipeline
 * that applies them in order (`apply_processors`).
 *
 * Each Python step is a closure; here a step is a tagged value carrying its
 * literal parameters, and `Eval` gives its meaning. A step that raises in
 * Python yields `None`.
 */
module Processors {
  import opened Wrappers
  import opened Text

  /**
   * The library functions the codec and hash steps call: base64, hex digests
   * and percent-encoding. They are parameters of the model; base64 decoding
   * is partial because Python's decoder raises on malformed input.
   */
  datatype Codecs = Codecs(
    base64Encode: string -> string,
    base64Decode: string -> Option<string>,
    md5Hex: string -> string,
    sha1Hex: string -> string,
    sha256Hex: string -> string,
    quote: string -> string,
    quoteAll: string -> string,
    unquote: string -> string)

  datatype Step =
    | Prefix(text: string)
    | Suffix(text: string)
    | Base64Encode
    | Base64Decode
    | Md5
    | Md5Half
    | Sha1
    | Sha256
    | UrlEncode
    | UrlEncodeAll
    | UrlDecode
    | Upper
    | Lower
    | Reverse
    | Repeat(count: int)
    | Replace(pattern: string, replacement: string)
    | Substring(start: int, end: Option<int>)
    | PadLeft(width: int, fill: string)
    | PadRight(width: int, fill: string)
    | Custom(apply: string -> Option<string>)

  /** The effect of one step on `x`; `None` where the Python lambda raises. */
  function Eval(c: Codecs, step: Step, x: string): Option<string> {
    match step
    case Prefix(t) => Some(t + x)
    case Suffix(t) => Some(x + t)
    case Base64Encode => Some(c.base64Encode(x))
    case Base64Decode => c.base64Decode(x)
    case Md5 => Some(c.md5Hex(x))
    case Md5Half => Some(Slice(c.md5Hex(x), 8, Some(24)))
    case Sha1 => Some(c.sha1Hex(x))
    case Sha256 => Some(c.sha256Hex(x))
    case UrlEncode => Some(c.quote(x))
    case UrlEncodeAll => Some(c.quoteAll(x))
    case UrlDecode => Some(c.unquote(x))
    case Upper => Some(Text.Upper(x))
    case Lower => Some(Text.Lower(x))
    case Reverse => Some(Text.Reverse(x))
    case Repeat(n) => Some(Text.Repeat(x, n))
    case Replace(p, w) => Some(ReplaceAll(x, p, w))
    case Substring(lo, hi) => Some(Slice(x, lo, hi))
    case PadLeft(n, f) =>
      if f == "0" then Some(ZeroFill(x, n))
      else if |f| != 1 then None  // rjust: the fill character must be exactly one character long
      else Some(PadStart(x, n, f[0]))
    case PadRight(n, f) =>
      if |f| != 1 then None  // ljust: the fill character must be exactly one character long
      else Some(PadEnd(x, n, f[0]))
    case Custom(f) => f(x)
  }

  /**
   * The pipeline as a left fold: the last step runs on the result of all the
   * steps before it; a step that fails makes the whole pipeline fail.
   */
  function Pipeline(c: Codecs, x: string, steps: seq<Step>): Option<string>
    decreases |steps|
  {
    if steps == [] then Some(x)
    else
      match Pipeline(c, x, steps[..|steps| - 1])
      case None => None
      case Some(y) => Eval(c, steps[|steps| - 1], y)
  }

  /** Running `ps` and then `qs` is running `ps + qs`. */
  lemma {:induction false} PipelineAppend(c: Codecs, x: string, ps: seq<Step>, qs: seq<Step>)
    ensures Pipeline(c, x, ps + qs) ==
            match Pipeline(c, x, ps) case None => None case Some(y) => Pipeline(c, y, qs)
    decreases |qs|
  {
    if qs == [] {
      assert ps + qs == ps;
    } else {
      var qs' := qs[..|qs| - 1];
      assert (ps + qs)[..|ps + qs| - 1] == ps + qs';
      PipelineAppend(c, x, ps, qs');
      match Pipeline(c, x, ps)
      case None =>
      case Some(y) =>
        assert qs[..|qs| - 1] == qs';
    }
  }

  /** Steps run strictly left to right: the first step sees the raw value. */
  lemma PipelineFirstStep(c: Codecs, x: string, p: Step, qs: seq<Step>)
    ensures Pipeline(c, x, [p] + qs) ==
            match Eval(c, p, x) case None => None case Some(y) => Pipeline(c, y, qs)
  {
    PipelineAppend(c, x, [p], qs);
    assert [p][..0] == [];
  }

  /** Appending a step applies it to the result so far. */
  lemma PipelineLastStep(c: Codecs, x: string, ps: seq<Step>, p: Step)
    ensures Pipeline(c, x, ps + [p]) ==
            match Pipeline(c, x, ps) case None => None case Some(y) => Eval(c, p, y)
  {
    assert (ps + [p])[..|ps|] == ps;
  }

  /** A failing prefix of the pipeline fails the whole pipeline. */
  lemma PipelineFailureSticks(c: Codecs, x: string, ps: seq<Step>, qs: seq<Step>)
    requires Pipeline(c, x, ps).None?
    ensures Pipeline(c, x, ps + qs).None?
  {
    PipelineAppend(c, x, ps, qs);
  }

  /** A pipeline of steps that never fail never fails. */
  lemma {:induction false} PipelineTotal(c: Codecs, x: string, steps: seq<Step>)
    requires forall i :: 0 <= i < |steps| ==> Total(steps[i])
    ensures Pipeline(c, x, steps).Some?
    decreases |steps|
  {
    if steps != [] {
      PipelineTotal(c, x, steps[..|steps| - 1]);
      TotalNeverFails(c, steps[|steps| - 1], Pipeline(c, x, steps[..|steps| - 1]).value);
    }
  }

  /** The steps that cannot raise, whatever their input. */
  predicate Total(step: Step) {
    match step
    case Base64Decode => false
    case PadLeft(_, f) => f == "0" || |f| == 1
    case PadRight(_, f) => |f| == 1
    case Custom(_) => false
    case _ => true
  }

  lemma TotalNeverFails(c: Codecs, step: Step, x: string)
    requires Total(step)
    ensures Eval(c, step, x).Some?
  {
  }

  // ---------------------------------------------------------------------------
  // Properties of single steps

  /** pad_right(n, ch) yields a string that starts with x and has length max(|x|, n). */
  lemma PadRightShape(c: Codecs, n: int, ch: char, x: string)
    ensures Eval(c, PadRight(n, [ch]), x).Some?
    ensures var r := Eval(c, PadRight(n, [ch]), x).value;
            |r| == (if n > |x| then n else |x|) && r[..|x|] == x
            && forall k :: |x| <= k < |r| ==> r[k] == ch
  {
  }

  /** pad_left with a fill other than "0" right-justifies x in a field of width n. */
  lemma PadLeftShape(c: Codecs, n: int, ch: char, x: string)
    requires ch != '0'
    ensures Eval(c, PadLeft(n, [ch]), x).Some?
    ensures var r := Eval(c, PadLeft(n, [ch]), x).value;
            |r| == (if n > |x| then n else |x|) && r[|r| - |x|..] == x
            && forall k :: 0 <= k < |r| - |x| ==> r[k] == ch
  {
    assert [ch] != "0";
  }

  /** pad_left with "0" is `zfill`: a leading sign stays in front of the zeros. */
  lemma PadLeftZeroSign(c: Codecs, n: int, x: string)
    requires |x| < n && x != [] && x[0] == '-'
    ensures Eval(c, PadLeft(n, "0"), x) == Some("-" + Text.Repeat("0", n - |x|) + x[1..])
  {
  }

  /** A fill that is not a single character makes pad_left/pad_right raise (except "0" for pad_left). */
  lemma PadBadFill(c: Codecs, n: int, f: string, x: string)
    requires |f| != 1
    ensures Eval(c, PadRight(n, f), x).None?
    ensures Eval(c, PadLeft(n, f), x).None?
  {
  }

  /** Reversing twice gives the input back. */
  lemma ReverseTwice(c: Codecs, x: string)
    ensures Pipeline(c, x, [Reverse, Reverse]) == Some(x)
  {
    PipelineFirstStep(c, x, Reverse, [Reverse]);
    ReverseInvolution(x);
  }

  /** Case steps are idempotent, and the later case step wins. */
  lemma CaseSteps(c: Codecs, x: string)
    ensures Pipeline(c, x, [Upper, Upper]) == Pipeline(c, x, [Upper])
    ensures Pipeline(c, x, [Lower, Lower]) == Pipeline(c, x, [Lower])
  {
    PipelineFirstStep(c, x, Upper, [Upper]);
    PipelineFirstStep(c, x, Lower, [Lower]);
    UpperIdempotent(x);
    LowerIdempotent(x);
  }

  /** repeat(n) multiplies the length by n (nothing for n <= 0); md5_16 has at most 16 characters. */
  lemma LengthSteps(c: Codecs, n: int, x: string)
    ensures |Eval(c, Repeat(n), x).value| == if n <= 0 then 0 else n * |x|
    ensures |Eval(c, Md5Half, x).value| <= 16
    ensures |c.md5Hex(x)| >= 24 ==> Eval(c, Md5Half, x).value == c.md5Hex(x)[8..24]
  {
  }

  /** Prefix and suffix wrap the value; the documented chain encodes the prefixed value. */
  lemma AffixSteps(c: Codecs, a: string, b: string, x: string)
    ensures Pipeline(c, x, [Prefix(a), Suffix(b)]) == Some(a + x + b)
    ensures Pipeline(c, x, [Suffix(b), Prefix(a)]) == Some(a + x + b)
    ensures Pipeline(c, "password", [Prefix("admin:"), Base64Encode]) == Some(c.base64Encode("admin:password"))
  {
    PipelineFirstStep(c, x, Prefix(a), [Suffix(b)]);
    PipelineFirstStep(c, x, Suffix(b), [Prefix(a)]);
    assert a + (x + b) == a + x + b;
    PipelineFirstStep(c, "password", Prefix("admin:"), [Base64Encode]);
    assert "admin:" + "password" == "admin:password";
    assert Pipeline(c, "admin:password", [Base64Encode]) == Eval(c, Base64Encode, "admin:password");
  }

  /** A replace whose pattern does not occur changes nothing. */
  lemma ReplaceAbsentStep(c: Codecs, p: string, w: string, x: string)
    requires p != [] && !Contains(x, p)
    ensures Eval(c, Replace(p, w), x) == Some(x)
  {
    ReplaceAbsent(x, p, w);
  }

  // ---------------------------------------------------------------------------
  // `apply_processors`

  /** Applies the steps in order, stopping at the first that raises. */
  method ApplyProcessors(c: Codecs, value: string, steps: seq<Step>) returns (r: Option<string>)
    ensures r == Pipeline(c, value, steps)
    ensures steps == [] ==> r == Some(value)
  {
    var result := value;
    var i := 0;
    while i < |steps|
      invariant 0 <= i <= |steps|
      invariant Pipeline(c, value, steps[..i]) == Some(result)
    {
      assert steps[..i + 1][..i] == steps[..i];
      var next := Eval(c, steps[i], result);
      if next.None? {
        assert steps[..i + 1] + steps[i + 1..] == steps;
        PipelineFailureSticks(c, value, steps[..i + 1], steps[i + 1..]);
        return None;
      }
      result := next.value;
      i := i + 1;
    }
    assert steps[..i] == steps;
    return Some(result);
  }
}
