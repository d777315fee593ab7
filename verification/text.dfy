/** Character-level text helpers shared by the shader source pipeline:
    whitespace trimming, splitting on '\n', the `StringBuilder.AppendLine`
    layout, `"\r\n"` normalisation and decimal conversion of integers. */
module Text {

  /** .NET's whitespace class, shared by the regex `\s` and
      `char.IsWhiteSpace`: the control characters U+0009 to U+000D and
      U+0085, and the Unicode space, line and paragraph separators. */
  predicate IsSpace(c: char) {
    || '\t' <= c <= '\r' || c == ' ' || c == '\U{0085}' || c == '\U{00A0}' || c == '\U{1680}'
    || '\U{2000}' <= c <= '\U{200A}' || c == '\U{2028}' || c == '\U{2029}' || c == '\U{202F}'
    || c == '\U{205F}' || c == '\U{3000}'
  }

  predicate IsDigit(c: char) {
    '0' <= c <= '9'
  }

  predicate AllDigits(s: string) {
    forall i :: 0 <= i < |s| ==> IsDigit(s[i])
  }

  /** `string.TrimStart()`: drops the leading whitespace and nothing else. */
  function TrimStart(s: string): (r: string)
    ensures |r| <= |s| && r == s[|s| - |r|..]
    ensures r == [] || !IsSpace(r[0])
    ensures forall i :: 0 <= i < |s| - |r| ==> IsSpace(s[i])
  {
    if s != [] && IsSpace(s[0]) then TrimStart(s[1..]) else s
  }

  /** `string.TrimEnd()`: drops the trailing whitespace and nothing else. */
  function TrimEnd(s: string): (r: string)
    ensures |r| <= |s| && r == s[..|r|]
    ensures r == [] || !IsSpace(r[|r| - 1])
    ensures forall i :: |r| <= i < |s| ==> IsSpace(s[i])
  {
    if s != [] && IsSpace(s[|s| - 1]) then TrimEnd(s[..|s| - 1]) else s
  }

  /** `string.Trim()`. */
  function Trim(s: string): (r: string)
    ensures r == [] || (!IsSpace(r[0]) && !IsSpace(r[|r| - 1]))
  {
    TrimEnd(TrimStart(s))
  }

  function NewlineCount(s: string): nat {
    if s == [] then 0 else (if s[0] == '\n' then 1 else 0) + NewlineCount(s[1..])
  }

  /** The lines of `s`: the pieces between the '\n' characters. */
  function Lines(s: string): (ls: seq<string>)
    ensures |ls| == NewlineCount(s) + 1
  {
    if s == [] then [""]
    else
      var rest := Lines(s[1..]);
      if s[0] == '\n' then [""] + rest else [[s[0]] + rest[0]] + rest[1..]
  }

  /** The inverse of `Lines`: the lines glued back together with '\n'. */
  function JoinLines(ls: seq<string>): string
    requires |ls| > 0
  {
    if |ls| == 1 then ls[0] else ls[0] + "\n" + JoinLines(ls[1..])
  }

  /** The text a `StringBuilder` holds after `AppendLine(p)` for each `p` in
      order (the newline is modelled as "\n"). */
  function AppendLines(ps: seq<string>): string {
    if ps == [] then "" else ps[0] + "\n" + AppendLines(ps[1..])
  }

  /** The lines of every piece, one after another. */
  function FlatLines(ps: seq<string>): seq<string> {
    if ps == [] then [] else Lines(ps[0]) + FlatLines(ps[1..])
  }

  /** `s.Replace("\r\n", "\n")`: a left-to-right, non-overlapping replace. */
  function ReplaceCrLf(s: string): (r: string)
    ensures NewlineCount(r) == NewlineCount(s)
    ensures |r| <= |s|
  {
    if |s| < 2 then s
    else if s[0] == '\r' && s[1] == '\n' then
      assert NewlineCount(s) == NewlineCount(s[1..]) == 1 + NewlineCount(s[2..]);
      "\n" + ReplaceCrLf(s[2..])
    else
      [s[0]] + ReplaceCrLf(s[1..])
  }

  function DigitChar(d: nat): char
    requires d < 10
  {
    (('0' as int) + d) as char
  }

  /** `int.ToString()` of a non-negative value. */
  function NatToString(n: nat): (s: string)
    ensures |s| > 0 && AllDigits(s)
    decreases n
  {
    if n < 10 then [DigitChar(n)] else NatToString(n / 10) + [DigitChar(n % 10)]
  }

  /** `int.ToString()`. */
  function IntToString(i: int): string {
    if i < 0 then "-" + NatToString(-i) else NatToString(i)
  }

  /** `int.Parse` of a string of decimal digits (overflow is not modelled). */
  function DigitsValue(s: string): nat
    requires AllDigits(s)
  {
    if s == [] then 0 else 10 * DigitsValue(s[..|s| - 1]) + ((s[|s| - 1] as int) - ('0' as int))
  }

  /** No line holds a '\n'. */
  lemma {:induction false} LinesHaveNoNewline(s: string)
    ensures forall i :: 0 <= i < |Lines(s)| ==> '\n' !in Lines(s)[i]
  {
    if s != [] {
      LinesHaveNoNewline(s[1..]);
    }
  }

  lemma {:induction false} LinesOfNewlineFree(s: string)
    requires '\n' !in s
    ensures Lines(s) == [s]
  {
    if s != [] {
      LinesOfNewlineFree(s[1..]);
      assert [s[0]] + s[1..] == s;
    }
  }

  /** Splitting distributes over a '\n' join. */
  lemma {:induction false} LinesOfJoin(a: string, b: string)
    ensures Lines(a + "\n" + b) == Lines(a) + Lines(b)
  {
    var s := a + "\n" + b;
    if a == [] {
      assert s[1..] == b;
    } else {
      assert s[1..] == a[1..] + "\n" + b;
      LinesOfJoin(a[1..], b);
    }
  }

  /** `Lines` undoes `JoinLines` when no line holds a '\n'. */
  lemma {:induction false} LinesOfJoinLines(ls: seq<string>)
    requires |ls| > 0
    requires forall i :: 0 <= i < |ls| ==> '\n' !in ls[i]
    ensures Lines(JoinLines(ls)) == ls
  {
    if |ls| == 1 {
      LinesOfNewlineFree(ls[0]);
    } else {
      LinesOfJoinLines(ls[1..]);
      LinesOfJoin(ls[0], JoinLines(ls[1..]));
      LinesOfNewlineFree(ls[0]);
    }
  }

  /** The lines of an `AppendLine` sequence followed by more text. */
  lemma {:induction false} LinesOfAppendLines(ps: seq<string>, rest: string)
    ensures Lines(AppendLines(ps) + rest) == FlatLines(ps) + Lines(rest)
  {
    if ps != [] {
      assert AppendLines(ps) + rest == ps[0] + "\n" + (AppendLines(ps[1..]) + rest);
      LinesOfJoin(ps[0], AppendLines(ps[1..]) + rest);
      LinesOfAppendLines(ps[1..], rest);
    } else {
      assert AppendLines(ps) + rest == rest;
    }
  }

  lemma {:induction false} FlatLinesConcat(a: seq<string>, b: seq<string>)
    ensures FlatLines(a + b) == FlatLines(a) + FlatLines(b)
  {
    if a != [] {
      assert (a + b)[1..] == a[1..] + b;
      FlatLinesConcat(a[1..], b);
    } else {
      assert a + b == b;
    }
  }

  /** The parts one after another. */
  function Concat<T>(parts: seq<seq<T>>): (r: seq<T>)
    ensures parts == [] ==> r == []
  {
    if parts == [] then [] else parts[0] + Concat(parts[1..])
  }

  lemma {:induction false} ConcatLength<T>(parts: seq<seq<T>>)
    ensures |Concat(parts)| == PartsOffset(parts, |parts|)
  {
    if parts != [] {
      ConcatLength(parts[1..]);
      PartsOffsetShift(parts, |parts|);
    }
  }

  /** Where part `k` begins in the concatenation: the total length of the
      parts before it. */
  function PartsOffset<T>(parts: seq<seq<T>>, k: nat): nat
    requires k <= |parts|
  {
    if k == 0 then 0 else PartsOffset(parts, k - 1) + |parts[k - 1]|
  }

  lemma {:induction false} PartsOffsetShift<T>(parts: seq<seq<T>>, k: nat)
    requires 1 <= k <= |parts|
    ensures PartsOffset(parts, k) == |parts[0]| + PartsOffset(parts[1..], k - 1)
  {
    if k > 1 {
      PartsOffsetShift(parts, k - 1);
      assert parts[1..][k - 2] == parts[k - 1];
    }
  }

  /** Part `k` sits in the concatenation right after the parts before
      it. */
  lemma {:induction false} ConcatSlice<T>(parts: seq<seq<T>>, k: nat)
    requires k < |parts|
    ensures PartsOffset(parts, k) + |parts[k]| <= |Concat(parts)|
    ensures Concat(parts)[PartsOffset(parts, k)..PartsOffset(parts, k) + |parts[k]|] == parts[k]
  {
    var c := Concat(parts);
    assert c == parts[0] + Concat(parts[1..]);
    if k == 0 {
      assert c[..|parts[0]|] == parts[0];
    } else {
      var o := PartsOffset(parts[1..], k - 1);
      PartsOffsetShift(parts, k);
      ConcatSlice(parts[1..], k - 1);
      assert parts[1..][k - 1] == parts[k];
      SliceOfAppend(parts[0], Concat(parts[1..]), o, o + |parts[k]|);
    }
  }

  /** `ConcatSlice` with the concatenation, the offset and the part given
      by name. */
  lemma ConcatPart<T>(flat: seq<T>, parts: seq<seq<T>>, k: nat, at: nat, part: seq<T>)
    requires flat == Concat(parts) && k < |parts|
    requires at == PartsOffset(parts, k) && part == parts[k]
    ensures at + |part| <= |flat| && flat[at..at + |part|] == part
  {
    ConcatSlice(parts, k);
  }

  /** A slice of the middle of `pre + mid + post`, read through the
      whole. */
  lemma SliceThrough<T>(whole: seq<T>, pre: seq<T>, mid: seq<T>, post: seq<T>, at: nat, part: seq<T>)
    requires whole == pre + mid + post
    requires at + |part| <= |mid| && mid[at..at + |part|] == part
    ensures |pre| + at + |part| <= |whole| && whole[|pre| + at..|pre| + at + |part|] == part
  {
    SliceAfterPrefix(pre, mid, post, at, at + |part|);
  }

  /** The elements of a slice, read through the whole sequence. */
  lemma SliceElements<T>(s: seq<T>, at: nat, part: seq<T>)
    requires at + |part| <= |s| && s[at..at + |part|] == part
    ensures forall j | 0 <= j < |part| :: s[at + j] == part[j]
  {
    forall j | 0 <= j < |part|
      ensures s[at + j] == part[j]
    {
      assert s[at..at + |part|][j] == s[at + j];
    }
  }

  lemma SliceOfAppend<T>(a: seq<T>, b: seq<T>, i: nat, j: nat)
    requires i <= j <= |b|
    ensures (a + b)[|a| + i..|a| + j] == b[i..j]
  {
  }

  lemma SliceAfterPrefix<T>(pre: seq<T>, mid: seq<T>, post: seq<T>, i: nat, j: nat)
    requires i <= j <= |mid|
    ensures (pre + mid + post)[|pre| + i..|pre| + j] == mid[i..j]
  {
  }

  /** Parsing the decimal text of `n` gives `n` back. */
  lemma {:induction false} DigitsValueOfNatToString(n: nat)
    ensures DigitsValue(NatToString(n)) == n
    decreases n
  {
    var s := NatToString(n);
    if n >= 10 {
      DigitsValueOfNatToString(n / 10);
      assert s[..|s| - 1] == NatToString(n / 10);
    }
  }
}
