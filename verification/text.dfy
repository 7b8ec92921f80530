/**
  The JavaScript string built-ins the editor relies on, stated on `seq<char>`:
  `startsWith`, `indexOf`/`lastIndexOf`, single-occurrence `replace`,
  `split`/`join` on one separator character, `trim`, `Number.prototype.toString`
  on naturals and `padStart` with a `'0'` filler.
 */
module Text {

  import opened Common

  // ---------------------------------------------------------------------
  // Prefixes and searching
  // ---------------------------------------------------------------------

  /** `s.startsWith(p)`. */
  predicate StartsWith(s: string, p: string) {
    |p| <= |s| && s[..|p|] == p
  }

  /** A text starts with any text it is built from by appending. */
  lemma StartsWithAppended(p: string, t: string)
    ensures StartsWith(p + t, p)
  {
    assert (p + t)[..|p|] == p;
  }

  /** `s.startsWith(p)` holds exactly when `p` matches `s` character by character from the first. */
  lemma StartsWithChars(s: string, p: string)
    ensures StartsWith(s, p) <==> |p| <= |s| && forall i :: 0 <= i < |p| ==> s[i] == p[i]
  {
    if |p| <= |s| && forall i :: 0 <= i < |p| ==> s[i] == p[i] {
      assert s[..|p|] == p;
    }
  }

  /** True when `p` occurs in `s` at index `i`. */
  predicate OccursAt(s: string, p: string, i: int) {
    0 <= i && i + |p| <= |s| && s[i..i + |p|] == p
  }

  /** `s.indexOf(p, from)`, with `None` for -1. */
  function IndexOfFrom(s: string, p: string, from: nat): (r: Option<nat>)
    decreases |s| - from
    ensures r.Some? ==> from <= r.value && OccursAt(s, p, r.value)
    ensures r.Some? ==> forall j :: from <= j < r.value ==> !OccursAt(s, p, j)
    ensures r.None? ==> forall j :: from <= j ==> !OccursAt(s, p, j)
  {
    if from + |p| > |s| then None
    else if s[from..from + |p|] == p then Some(from)
    else IndexOfFrom(s, p, from + 1)
  }

  /** `s.indexOf(p)`. */
  function IndexOf(s: string, p: string): Option<nat> {
    IndexOfFrom(s, p, 0)
  }

  /**
    `s.replace(p, rep)` with a string pattern: only the FIRST occurrence is
    replaced; without an occurrence `s` is returned as is.
   */
  function ReplaceFirst(s: string, p: string, rep: string): string {
    match IndexOf(s, p)
    case None => s
    case Some(i) => s[..i] + rep + s[i + |p|..]
  }

  /**
    Without an occurrence the text is kept; otherwise the occurrence with
    none before it, and only that one, is replaced.
   */
  lemma ReplaceFirstSpec(s: string, p: string, rep: string, i: nat)
    ensures (forall j :: !OccursAt(s, p, j)) ==> ReplaceFirst(s, p, rep) == s
    ensures OccursAt(s, p, i) && (forall j :: 0 <= j < i ==> !OccursAt(s, p, j)) ==>
              ReplaceFirst(s, p, rep) == s[..i] + rep + s[i + |p|..]
  {
    if OccursAt(s, p, i) && (forall j :: 0 <= j < i ==> !OccursAt(s, p, j)) {
      var k := IndexOf(s, p);
      assert k.Some?;
      assert !(k.value < i) && !(i < k.value);
    }
  }

  /** Replacing a pattern by the empty string when `s` starts with it drops exactly that prefix. */
  lemma ReplaceLeadingPrefix(s: string, p: string)
    requires StartsWith(s, p)
    ensures ReplaceFirst(s, p, "") == s[|p|..]
  {
    assert OccursAt(s, p, 0);
    assert IndexOf(s, p) == Some(0);
  }

  /** `s.lastIndexOf(c)` for a one-character needle (-1 when absent). */
  function LastIndexOf(s: string, c: char): (r: int)
    ensures -1 <= r < |s|
    ensures r >= 0 ==> s[r] == c
    ensures forall j :: r < j < |s| ==> s[j] != c
  {
    if |s| == 0 then -1
    else if s[|s| - 1] == c then |s| - 1
    else LastIndexOf(s[..|s| - 1], c)
  }

  /** The last `c` of `p + [c] + t` is the one after `p` when `t` holds no `c`. */
  lemma {:induction false} LastIndexOfBeforeSuffix(p: string, c: char, t: string)
    requires forall i :: 0 <= i < |t| ==> t[i] != c
    ensures LastIndexOf(p + [c] + t, c) == |p|
    decreases |t|
  {
    var s := p + [c] + t;
    if |t| > 0 {
      assert s[|s| - 1] == t[|t| - 1];
      LastIndexOfBeforeSuffix(p, c, t[..|t| - 1]);
      assert s[..|s| - 1] == p + [c] + t[..|t| - 1];
    }
  }

  // ---------------------------------------------------------------------
  // split / join on one character
  // ---------------------------------------------------------------------

  /** `s.split(c)`: the pieces between occurrences of `c`; `"".split(c)` is `[""]`. */
  function Split(s: string, c: char): (r: seq<string>)
    ensures |r| >= 1
    ensures forall i :: 0 <= i < |r| ==> c !in r[i]
  {
    if |s| == 0 then [""]
    else
      var rest := Split(s[1..], c);
      if s[0] == c then [""] + rest
      else [[s[0]] + rest[0]] + rest[1..]
  }

  /**
    `parts.join(c)`; joining no parts gives the empty string. The join
    opens with the first part, followed by the separator when there is a
    second one.
   */
  function Join(parts: seq<string>, c: char): (r: string)
    ensures |parts| == 0 ==> r == ""
    ensures |parts| >= 1 ==> |parts[0]| <= |r| && r[..|parts[0]|] == parts[0]
    ensures |parts| >= 2 ==> |parts[0]| < |r| && r[|parts[0]|] == c
  {
    if |parts| == 0 then ""
    else if |parts| == 1 then parts[0]
    else parts[0] + [c] + Join(parts[1..], c)
  }

  /** Joining after prefixing the first part with one character prefixes the join. */
  lemma JoinConsChar(x: char, parts: seq<string>, c: char)
    requires |parts| >= 1
    ensures Join([[x] + parts[0]] + parts[1..], c) == [x] + Join(parts, c)
  {
    var q := [[x] + parts[0]] + parts[1..];
    if |parts| > 1 {
      assert q[1..] == parts[1..];
    }
  }

  /** Joining after an empty first part prefixes the join with the separator. */
  lemma JoinEmptyFirst(parts: seq<string>, c: char)
    requires |parts| >= 1
    ensures Join([""] + parts, c) == [c] + Join(parts, c)
  {
    assert ([""] + parts)[1..] == parts;
  }

  /** Joining the pieces of a split gives back the original text. */
  lemma {:induction false} JoinSplit(s: string, c: char)
    ensures Join(Split(s, c), c) == s
  {
    if |s| > 0 {
      var rest := Split(s[1..], c);
      JoinSplit(s[1..], c);
      if s[0] == c {
        JoinEmptyFirst(rest, c);
      } else {
        JoinConsChar(s[0], rest, c);
      }
      assert s == [s[0]] + s[1..];
    }
  }

  /** A text free of the separator splits into itself, followed by whatever the tail splits into. */
  lemma {:induction false} SplitPrefix(p: string, t: string, c: char)
    requires c !in p
    ensures Split(p + t, c) == [p + Split(t, c)[0]] + Split(t, c)[1..]
  {
    if |p| == 0 {
      var r := Split(t, c);
      assert p + t == t;
      assert p + r[0] == r[0];
      assert r == [r[0]] + r[1..];
    } else {
      SplitPrefix(p[1..], t, c);
      assert (p + t)[1..] == p[1..] + t;
      assert (p + t)[0] == p[0];
      assert p[0] != c;
      assert [p[0]] + (p[1..] + Split(t, c)[0]) == p + Split(t, c)[0];
    }
  }

  /** Splitting at a separator splits the two sides independently. */
  lemma {:induction false} SplitConcat(a: string, b: string, c: char)
    ensures Split(a + [c] + b, c) == Split(a, c) + Split(b, c)
    decreases |a|
  {
    var s := a + [c] + b;
    if |a| == 0 {
      assert s[0] == c && s[1..] == b;
    } else {
      assert s[0] == a[0] && s[1..] == a[1..] + [c] + b;
      SplitConcat(a[1..], b, c);
      var left := Split(a[1..], c);
      var right := Split(b, c);
      if a[0] == c {
        ConcatAssoc([""], left, right);
      } else {
        HeadAndTail(left, right);
        ConcatAssoc([[a[0]] + left[0]], left[1..], right);
      }
    }
  }

  /** Appending to a non-empty sequence keeps its head and extends its tail. */
  lemma HeadAndTail<T>(left: seq<T>, right: seq<T>)
    requires |left| >= 1
    ensures (left + right)[0] == left[0] && (left + right)[1..] == left[1..] + right
  {
  }

  /** Splitting a join of separator-free parts recovers the parts. */
  lemma {:induction false} SplitJoin(parts: seq<string>, c: char)
    requires |parts| >= 1
    requires forall i :: 0 <= i < |parts| ==> c !in parts[i]
    ensures Split(Join(parts, c), c) == parts
  {
    if |parts| == 1 {
      SplitPrefix(parts[0], "", c);
      assert parts[0] + "" == parts[0];
    } else {
      var tail := Join(parts[1..], c);
      SplitJoin(parts[1..], c);
      var t := [c] + tail;
      assert Split(t, c) == [""] + Split(tail, c) by {
        assert t[0] == c && t[1..] == tail;
      }
      assert Join(parts, c) == parts[0] + t;
      SplitPrefix(parts[0], t, c);
      assert parts[0] + "" == parts[0];
      assert parts == [parts[0]] + parts[1..];
    }
  }

  // ---------------------------------------------------------------------
  // trim
  // ---------------------------------------------------------------------

  /**
    The characters `String.prototype.trim` removes: ECMAScript WhiteSpace
    (tab, vertical tab, form feed, space, no-break space, the byte-order mark
    and the Space_Separator category U+1680, U+2000-U+200A, U+202F, U+205F,
    U+3000) and LineTerminator (LF, CR, LS, PS).
   */
  predicate IsJsWhitespace(ch: char) {
    || ch == '\t' || ch == '\U{000B}' || ch == '\U{000C}' || ch == ' '
    || ch == '\U{00A0}' || ch == '\U{FEFF}'
    || ch == '\U{1680}' || ('\U{2000}' <= ch <= '\U{200A}') || ch == '\U{202F}'
    || ch == '\U{205F}' || ch == '\U{3000}'
    || ch == '\n' || ch == '\r' || ch == '\U{2028}' || ch == '\U{2029}'
  }

  /** Where the whitespace set ends: what `trim` keeps that one might expect it to remove, and the reverse. */
  lemma JsWhitespaceEdges(ch: char)
    // no visible ASCII character is whitespace
    ensures '!' <= ch <= '~' ==> !IsJsWhitespace(ch)
    // NEL and the zero-width space are in neither set, so trim keeps them
    ensures ch == '\U{0085}' || ch == '\U{200B}' ==> !IsJsWhitespace(ch)
    // among the C0 controls exactly TAB, LF, VT, FF and CR are removed
    ensures ch < ' ' ==> (IsJsWhitespace(ch) <==> '\t' <= ch <= '\r')
  {
  }

  /** True when `s` neither begins nor ends with whitespace. */
  predicate IsTrimmed(s: string) {
    |s| == 0 || (!IsJsWhitespace(s[0]) && !IsJsWhitespace(s[|s| - 1]))
  }

  /** Removes leading whitespace. */
  function TrimStart(s: string): (r: string)
    ensures |r| <= |s| && r == s[|s| - |r|..]
    ensures |r| > 0 ==> !IsJsWhitespace(r[0])
    ensures forall i :: 0 <= i < |s| - |r| ==> IsJsWhitespace(s[i])
  {
    if |s| > 0 && IsJsWhitespace(s[0]) then TrimStart(s[1..]) else s
  }

  /** Removes trailing whitespace. */
  function TrimEnd(s: string): (r: string)
    ensures |r| <= |s| && r == s[..|r|]
    ensures |r| > 0 ==> !IsJsWhitespace(r[|r| - 1])
    ensures forall i :: |r| <= i < |s| ==> IsJsWhitespace(s[i])
  {
    if |s| > 0 && IsJsWhitespace(s[|s| - 1]) then TrimEnd(s[..|s| - 1]) else s
  }

  /**
    `s.trim()`: the infix of `s` left once the leading and the trailing
    whitespace are removed (`TrimAmidWhitespace`). Being trimmed, it is the
    only such infix (`TrimIsUnique`).
   */
  function Trim(s: string): (r: string)
    ensures IsTrimmed(r)
    ensures |r| <= |s|
    ensures InfixAmidWhitespace(s, r, |s| - |TrimStart(s)|)
  {
    var t := TrimStart(s);
    var r := TrimEnd(t);
    assert |r| > 0 ==> r[0] == t[0];
    TrimmedParts(s, t, r);
    r
  }

  /** `s.trim()` sits in `s` at `i`, with only whitespace before and after it. */
  lemma TrimAmidWhitespace(s: string) returns (i: nat)
    ensures InfixAmidWhitespace(s, Trim(s), i)
  {
    i := |s| - |TrimStart(s)|;
  }

  /** Trimming adds no character: whatever `s.trim()` holds, `s` holds. */
  lemma TrimKeepsOut(s: string, c: char)
    ensures c in Trim(s) ==> c in s
  {
    var i := TrimAmidWhitespace(s);
    var r := Trim(s);
    if c in r {
      var k :| 0 <= k < |r| && r[k] == c;
      assert s[i + k] == c;
    }
  }

  /**
    A suffix `t` of `s` after whitespace, cut to a prefix `r` before
    whitespace, is an infix of `s` amid whitespace.
   */
  lemma TrimmedParts(s: string, t: string, r: string)
    requires |t| <= |s| && t == s[|s| - |t|..]
    requires forall k :: 0 <= k < |s| - |t| ==> IsJsWhitespace(s[k])
    requires |r| <= |t| && r == t[..|r|]
    requires forall k :: |r| <= k < |t| ==> IsJsWhitespace(t[k])
    ensures InfixAmidWhitespace(s, r, |s| - |t|)
  {
    var i := |s| - |t|;
    PrefixOfSuffix(s, t, r, i);
    forall j | i + |r| <= j < |s|
      ensures IsJsWhitespace(s[j])
    {
      assert s[j] == t[j - i];
    }
  }

  /** A prefix `r` of the suffix `t` of `s` from `i` is the infix of `s` from `i`. */
  lemma PrefixOfSuffix<T>(s: seq<T>, t: seq<T>, r: seq<T>, i: nat)
    requires i <= |s| && t == s[i..]
    requires |r| <= |t| && r == t[..|r|]
    ensures i + |r| <= |s| && r == s[i..i + |r|]
  {
  }

  /** `r` occurs in `s` at `i`, and everything of `s` around that occurrence is whitespace. */
  predicate InfixAmidWhitespace(s: string, r: string, i: int) {
    && 0 <= i <= |s| - |r|
    && r == s[i..i + |r|]
    && (forall k :: 0 <= k < i ==> IsJsWhitespace(s[k]))
    && (forall k :: i + |r| <= k < |s| ==> IsJsWhitespace(s[k]))
  }

  /** Any trimmed text sitting amid whitespace in `s` is `s.trim()`. */
  lemma TrimIsUnique(s: string, r: string, i: int)
    requires IsTrimmed(r) && InfixAmidWhitespace(s, r, i)
    ensures r == Trim(s)
  {
    var t := Trim(s);
    var j := TrimAmidWhitespace(s);
    if |r| > 0 {
      assert s[i] == r[0] && s[i + |r| - 1] == r[|r| - 1];
    }
    if |t| > 0 {
      assert s[j] == t[0] && s[j + |t| - 1] == t[|t| - 1];
    }
  }

  /** Trimming a text that is already trimmed changes nothing. */
  lemma TrimTrimmed(s: string)
    requires IsTrimmed(s)
    ensures Trim(s) == s
  {
  }

  // ---------------------------------------------------------------------
  // Decimal rendering and zero padding
  // ---------------------------------------------------------------------

  predicate IsDigit(ch: char) { '0' <= ch <= '9' }

  function DigitChar(d: int): (ch: char)
    requires 0 <= d < 10
    ensures IsDigit(ch)
  {
    ['0', '1', '2', '3', '4', '5', '6', '7', '8', '9'][d]
  }

  function DigitValue(ch: char): (d: int)
    requires IsDigit(ch)
    ensures 0 <= d < 10
  {
    ch as int - '0' as int
  }

  /** `String(n)` for a natural number: its decimal digits without leading zeros. */
  function NatToDecimal(n: nat): (r: string)
    ensures |r| >= 1
    ensures forall i :: 0 <= i < |r| ==> IsDigit(r[i])
    ensures |r| > 1 ==> r[0] != '0'
  {
    if n < 10 then [DigitChar(n)]
    else NatToDecimal(n / 10) + [DigitChar(n % 10)]
  }

  /** The number a string of decimal digits denotes. */
  function DecimalValue(s: string): nat
    requires forall i :: 0 <= i < |s| ==> IsDigit(s[i])
  {
    if |s| == 0 then 0
    else DecimalValue(s[..|s| - 1]) * 10 + DigitValue(s[|s| - 1])
  }

  /** Reading the decimal rendering of `n` gives back `n`. */
  lemma {:induction false} DecimalRoundTrip(n: nat)
    ensures DecimalValue(NatToDecimal(n)) == n
  {
    var s := NatToDecimal(n);
    if n < 10 {
      assert s[..0] == [];
      assert DigitValue(DigitChar(n)) == n by {
        assert ['0', '1', '2', '3', '4', '5', '6', '7', '8', '9'][n] as int == '0' as int + n;
      }
    } else {
      DecimalRoundTrip(n / 10);
      assert s[..|s| - 1] == NatToDecimal(n / 10);
      assert DigitValue(DigitChar(n % 10)) == n % 10 by {
        assert ['0', '1', '2', '3', '4', '5', '6', '7', '8', '9'][n % 10] as int == '0' as int + n % 10;
      }
    }
  }

  /** A string of `k` zero digits. */
  function Zeros(k: nat): (r: string)
    ensures |r| == k
    ensures forall i :: 0 <= i < k ==> r[i] == '0'
  {
    if k == 0 then "" else Zeros(k - 1) + "0"
  }

  /** Leading zeros do not change the number a digit string denotes. */
  lemma {:induction false} LeadingZeros(k: nat, s: string)
    requires forall i :: 0 <= i < |s| ==> IsDigit(s[i])
    ensures forall i :: 0 <= i < |Zeros(k) + s| ==> IsDigit((Zeros(k) + s)[i])
    ensures DecimalValue(Zeros(k) + s) == DecimalValue(s)
  {
    var z := Zeros(k) + s;
    assert forall i :: 0 <= i < |z| ==> IsDigit(z[i]) by {
      forall i | 0 <= i < |z| ensures IsDigit(z[i]) {
        if i < k { assert z[i] == '0'; } else { assert z[i] == s[i - k]; }
      }
    }
    if |s| == 0 {
      assert z == Zeros(k);
      ZerosValue(k);
    } else {
      LeadingZeros(k, s[..|s| - 1]);
      assert z[..|z| - 1] == Zeros(k) + s[..|s| - 1];
      assert z[|z| - 1] == s[|s| - 1];
    }
  }

  /** A string of zeros denotes 0. */
  lemma {:induction false} ZerosValue(k: nat)
    ensures DecimalValue(Zeros(k)) == 0
  {
    if k > 0 {
      var z := Zeros(k);
      ZerosValue(k - 1);
      assert z[..k - 1] == Zeros(k - 1);
      assert DecimalValue(z) == DecimalValue(Zeros(k - 1)) * 10 + DigitValue('0');
    }
  }

  /** `s.padStart(width, '0')`: `s` after as many `'0'`s as bring it to `width`. */
  function PadStartZeros(s: string, width: nat): (r: string)
    ensures |r| == if |s| >= width then |s| else width
  {
    if |s| >= width then s else Zeros(width - |s|) + s
  }

  /** The padded text ends with `s` and holds only `'0'`s before it. */
  lemma PadStartZerosShape(s: string, width: nat)
    ensures var r := PadStartZeros(s, width);
            && r[|r| - |s|..] == s
            && forall i :: 0 <= i < |r| - |s| ==> r[i] == '0'
  {
  }

  /** The zero-padded rendering of `n` still reads back as `n`. */
  lemma PaddedDecimalValue(n: nat, width: nat)
    ensures forall i :: 0 <= i < |PadStartZeros(NatToDecimal(n), width)| ==> IsDigit(PadStartZeros(NatToDecimal(n), width)[i])
    ensures DecimalValue(PadStartZeros(NatToDecimal(n), width)) == n
  {
    var s := NatToDecimal(n);
    DecimalRoundTrip(n);
    if |s| < width {
      LeadingZeros(width - |s|, s);
    }
  }

  /** Zero-padded renderings of different numbers are different strings. */
  lemma PaddedDecimalInjective(a: nat, b: nat, width: nat)
    requires PadStartZeros(NatToDecimal(a), width) == PadStartZeros(NatToDecimal(b), width)
    ensures a == b
  {
    PaddedDecimalValue(a, width);
    PaddedDecimalValue(b, width);
  }

  /** A larger number never has fewer decimal digits. */
  lemma {:induction false} DigitCountMonotone(k: nat, n: nat)
    requires k <= n
    ensures |NatToDecimal(k)| <= |NatToDecimal(n)|
  {
    if n >= 10 && k >= 10 {
      DigitCountMonotone(k / 10, n / 10);
    }
  }
}
