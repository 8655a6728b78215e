/** Shared value types: optional values, the Python exceptions the scripts can raise,
    and the two pieces of string formatting the scripts use (`%d` and `str.join`). */
module Common {

  datatype Option<+T> = None | Some(value: T)

  /** The exceptions that escape from the modelled code. */
  datatype PyError = IndexError | StopIteration | KeyError | ValueError

  datatype Result<+T> = Ok(value: T) | Err(error: PyError)

  predicate IsDigit(c: char) {
    '0' <= c <= '9'
  }

  predicate AllDigits(s: string) {
    forall i :: 0 <= i < |s| ==> IsDigit(s[i])
  }

  /** The decimal digit for `d`. */
  function DigitChar(d: nat): (c: char)
    requires d < 10
    ensures IsDigit(c) && c as int - '0' as int == d
  {
    (d + '0' as int) as char
  }

  /** Python's `'%d' % n` for a non-negative integer: no sign, no leading zeros. */
  function DecimalString(n: nat): (s: string)
    ensures |s| >= 1 && AllDigits(s)
    ensures s[0] == '0' ==> n == 0
    decreases n
  {
    if n < 10 then [DigitChar(n)] else DecimalString(n / 10) + [DigitChar(n % 10)]
  }

  /** Reads a string of decimal digits back as a number (reference for `DecimalString`). */
  function DigitsValue(s: string): nat
    requires AllDigits(s)
    decreases |s|
  {
    if s == [] then 0
    else DigitsValue(s[..|s| - 1]) * 10 + (s[|s| - 1] as int - '0' as int)
  }

  /** `%d` formatting is lossless: the digits read back as the number. */
  lemma {:induction false} DecimalStringRoundTrip(n: nat)
    ensures DigitsValue(DecimalString(n)) == n
    decreases n
  {
    var s := DecimalString(n);
    if n >= 10 {
      DecimalStringRoundTrip(n / 10);
      assert s[..|s| - 1] == DecimalString(n / 10);
    }
  }

  /** `sep.join(parts)`. */
  function Join(sep: string, parts: seq<string>): (r: string)
    ensures |parts| == 1 ==> r == parts[0]
    ensures |parts| == 0 ==> r == ""
    decreases |parts|
  {
    if |parts| == 0 then ""
    else if |parts| == 1 then parts[0]
    else parts[0] + sep + Join(sep, parts[1..])
  }

  /** The summed lengths of the parts. */
  function TotalLength(parts: seq<string>): nat
    decreases |parts|
  {
    if parts == [] then 0 else |parts[0]| + TotalLength(parts[1..])
  }

  /** The joined length is the parts' total plus one separator between neighbours. */
  lemma {:induction false} JoinLength(sep: string, parts: seq<string>)
    requires |parts| >= 1
    ensures |Join(sep, parts)| == TotalLength(parts) + (|parts| - 1) * |sep|
    decreases |parts|
  {
    if |parts| > 1 {
      JoinLength(sep, parts[1..]);
    }
  }

  /** Where part `k` begins in `Join(sep, parts)`: the parts before it and one separator after each. */
  function PartOffset(sep: string, parts: seq<string>, k: nat): nat
    requires k <= |parts|
  {
    TotalLength(parts[..k]) + k * |sep|
  }

  /** A slice past a prefix is a slice of what follows it. */
  lemma SliceAfterPrefix(p: string, t: string, x: nat, y: nat)
    requires x <= y <= |t|
    ensures (p + t)[|p| + x..|p| + y] == t[x..y]
  {
  }

  /** The offset of part `k` is the first part and a separator, then the offset of part
      `k - 1` among the rest. */
  lemma PartOffsetNext(sep: string, parts: seq<string>, k: nat)
    requires 0 < k <= |parts|
    ensures PartOffset(sep, parts, k) == |parts[0]| + |sep| + PartOffset(sep, parts[1..], k - 1)
  {
    assert parts[..k][1..] == parts[1..][..k - 1];
    assert k * |sep| == (k - 1) * |sep| + |sep|;
  }

  /** Joining keeps every part, in order: part `k` sits at its offset. */
  lemma {:induction false} JoinParts(sep: string, parts: seq<string>, k: nat)
    requires k < |parts|
    ensures var o := PartOffset(sep, parts, k);
      o + |parts[k]| <= |Join(sep, parts)| && Join(sep, parts)[o..o + |parts[k]|] == parts[k]
    decreases k
  {
    JoinLength(sep, parts);
    if k == 0 {
      assert parts[..0] == [];
    } else {
      var tail := Join(sep, parts[1..]);
      JoinParts(sep, parts[1..], k - 1);
      PartOffsetNext(sep, parts, k);
      var o' := PartOffset(sep, parts[1..], k - 1);
      SliceAfterPrefix(parts[0] + sep, tail, o', o' + |parts[k]|);
    }
  }

  /** ... and a separator follows every part but the last. */
  lemma {:induction false} JoinSeparators(sep: string, parts: seq<string>, k: nat)
    requires k + 1 < |parts|
    ensures var e := PartOffset(sep, parts, k) + |parts[k]|;
      e + |sep| <= |Join(sep, parts)| && Join(sep, parts)[e..e + |sep|] == sep
    decreases k
  {
    JoinLength(sep, parts);
    var tail := Join(sep, parts[1..]);
    if k == 0 {
      assert parts[..0] == [];
      assert Join(sep, parts) == parts[0] + sep + tail;
    } else {
      JoinSeparators(sep, parts[1..], k - 1);
      PartOffsetNext(sep, parts, k);
      JoinLength(sep, parts[1..]);
      var e' := PartOffset(sep, parts[1..], k - 1) + |parts[k]|;
      SliceAfterPrefix(parts[0] + sep, tail, e', e' + |sep|);
    }
  }
}
