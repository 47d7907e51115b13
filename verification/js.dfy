/** The JavaScript built-ins the engine leans on (`null`, `Array.prototype.indexOf`,
    `splice`, `String.prototype.substr`, `replace`, `split`, `trim`, `Number`),
    written out with the semantics the engine relies on. */
module Js {

  /** A nullable value. */
  datatype Option<+T> = None | Some(value: T)

  /** `xs.indexOf(x)`: the first index holding `x`, or -1. */
  function IndexOf<T(==)>(xs: seq<T>, x: T): (r: int)
    ensures -1 <= r < |xs|
    ensures 0 <= r ==> xs[r] == x
  {
    IndexFrom(xs, x, 0)
  }

  /** The first index at or after `from` holding `x`, or -1. */
  function IndexFrom<T(==)>(xs: seq<T>, x: T, from: nat): (r: int)
    requires from <= |xs|
    ensures r == -1 || (from <= r < |xs| && xs[r] == x)
    decreases |xs| - from
  {
    if from == |xs| then -1
    else if xs[from] == x then from
    else IndexFrom(xs, x, from + 1)
  }

  /** Concatenation regroups freely. */
  lemma AppendAssoc<T>(a: seq<T>, b: seq<T>, c: seq<T>)
    ensures a + b + c == a + (b + c)
  {
  }

  /** Replacing the last element of `a + b` replaces the last element of `b`. */
  lemma UpdateLast<T>(a: seq<T>, b: seq<T>, x: T)
    requires b != []
    ensures (a + b)[|a + b| - 1 := x] == a + (b[..|b| - 1] + [x])
  {
  }

  lemma {:induction false} IndexFromAbsent<T>(xs: seq<T>, x: T, from: nat)
    requires from <= |xs|
    ensures IndexFrom(xs, x, from) == -1 <==> forall j :: from <= j < |xs| ==> xs[j] != x
    decreases |xs| - from
  {
    if from < |xs| && xs[from] != x {
      IndexFromAbsent(xs, x, from + 1);
    }
  }

  lemma {:induction false} IndexFromIsFirst<T>(xs: seq<T>, x: T, from: nat)
    requires from <= |xs|
    ensures forall j :: from <= j < IndexFrom(xs, x, from) ==> xs[j] != x
    decreases |xs| - from
  {
    if from < |xs| && xs[from] != x {
      IndexFromIsFirst(xs, x, from + 1);
    }
  }

  /** `indexOf` answers -1 exactly when the element is absent. */
  lemma IndexOfAbsent<T>(xs: seq<T>, x: T)
    ensures IndexOf(xs, x) == -1 <==> x !in xs
  {
    IndexFromAbsent(xs, x, 0);
  }

  /** `indexOf` finds the first occurrence: none comes before it. */
  lemma IndexOfIsFirst<T>(xs: seq<T>, x: T)
    ensures forall j :: 0 <= j < IndexOf(xs, x) ==> xs[j] != x
  {
    IndexFromIsFirst(xs, x, 0);
  }

  /** `xs.splice(start, 1)` as it leaves `xs`: a negative start counts from the end
      (so -1 removes the last element), a start past the end removes nothing. */
  function SpliceOne<T>(xs: seq<T>, start: int): (r: seq<T>)
    ensures 0 <= start < |xs| ==> r == xs[..start] + xs[start + 1..]
    ensures start == -1 && |xs| > 0 ==> r == xs[..|xs| - 1]
    ensures start >= |xs| ==> r == xs
    ensures |r| == |xs| - (if |xs| > 0 then 1 else 0) || (start >= |xs| && r == xs)
    ensures forall y :: y in r ==> y in xs
  {
    var s := if start < 0 then (if |xs| + start < 0 then 0 else |xs| + start)
             else if start > |xs| then |xs| else start;
    if s < |xs| then xs[..s] + xs[s + 1..] else xs
  }

  /** `s.substr(start)` for a non-negative start: the text from `start` on, "" past
      the end. Built from the back, so that it is made of prefixes only. */
  function SubstrFrom(s: string, start: nat): (r: string)
    ensures |r| == if start <= |s| then |s| - start else 0
    decreases |s|
  {
    if |s| <= start then "" else SubstrFrom(s[..|s| - 1], start) + [s[|s| - 1]]
  }

  lemma {:induction false} SubstrFromIsSuffix(s: string, start: nat)
    requires start <= |s|
    ensures SubstrFrom(s, start) == s[start..]
    decreases |s|
  {
    if start < |s| {
      SubstrFromIsSuffix(s[..|s| - 1], start);
      assert s[start..] == s[..|s| - 1][start..] + [s[|s| - 1]];
    }
  }

  /** `s.substr(start, length)` for a non-negative start: a length that is not
      positive gives "", one past the end stops at the end. */
  function Substr(s: string, start: nat, length: int): (r: string)
    ensures length <= 0 ==> r == ""
    ensures |r| <= |SubstrFrom(s, start)|
  {
    var t := SubstrFrom(s, start);
    if length <= 0 then "" else if length >= |t| then t else t[..length]
  }

  /** Within the text, `substr` is the slice it names. */
  lemma SubstrIsSlice(s: string, start: nat, length: int)
    requires start <= |s| && 0 <= length <= |s| - start
    ensures Substr(s, start, length) == s[start..start + length]
  {
    SubstrFromIsSuffix(s, start);
  }

  /** From the start, `substr` is the prefix it names. */
  lemma SubstrIsPrefix(s: string, length: nat)
    requires length <= |s|
    ensures Substr(s, 0, length) == s[..length]
  {
    SubstrFromIsSuffix(s, 0);
  }

  /** `s.replace(c, "")` with a one-character string pattern: drops the first `c` only. */
  function ReplaceFirst(s: string, c: char): string
  {
    var i := IndexOf(s, c);
    if i == -1 then s else s[..i] + SubstrFrom(s, i + 1)
  }

  /** `replace` leaves a text without the character as it is, and otherwise removes
      exactly one character, the first occurrence. */
  lemma ReplaceFirstDropsOne(s: string, c: char)
    ensures c !in s ==> ReplaceFirst(s, c) == s
    ensures c in s ==> |ReplaceFirst(s, c)| == |s| - 1
                       && ReplaceFirst(s, c) == s[..IndexOf(s, c)] + s[IndexOf(s, c) + 1..]
                       && c !in s[..IndexOf(s, c)]
  {
    IndexOfAbsent(s, c);
    if c in s {
      SplitAtFirst(s, c);
      SubstrFromIsSuffix(s, IndexOf(s, c) + 1);
    }
  }

  /** Joins pieces with a separator; the inverse of `Split`. */
  function Join(ts: seq<string>, sep: char): string
  {
    if |ts| == 0 then ""
    else if |ts| == 1 then ts[0]
    else ts[0] + [sep] + Join(ts[1..], sep)
  }

  /** `s.split(sep)` with a one-character separator: empty pieces are kept, and the
      empty string splits into one empty piece. */
  function Split(s: string, sep: char): (r: seq<string>)
    ensures |r| >= 1
    decreases |s|
  {
    var i := IndexOf(s, sep);
    if i == -1 then [s] else [s[..i]] + Split(SubstrFrom(s, i + 1), sep)
  }

  /** A text cut at its first separator: the piece before it lacks the separator. */
  lemma SplitAtFirst(s: string, sep: char)
    requires IndexOf(s, sep) != -1
    ensures sep !in s[..IndexOf(s, sep)]
  {
    var i := IndexOf(s, sep);
    IndexOfIsFirst(s, sep);
    forall j | 0 <= j < i ensures s[..i][j] != sep {
      assert s[..i][j] == s[j];
    }
  }

  /** No piece holds the separator. */
  lemma {:induction false} SplitPiecesLackSeparator(s: string, sep: char)
    ensures forall t :: t in Split(s, sep) ==> sep !in t
    decreases |s|
  {
    var i := IndexOf(s, sep);
    IndexOfAbsent(s, sep);
    if i != -1 {
      SplitAtFirst(s, sep);
      SplitPiecesLackSeparator(SubstrFrom(s, i + 1), sep);
      assert Split(s, sep) == [s[..i]] + Split(SubstrFrom(s, i + 1), sep);
    }
  }

  /** Joining the pieces back gives the text. */
  lemma {:induction false} SplitJoin(s: string, sep: char)
    ensures Join(Split(s, sep), sep) == s
    decreases |s|
  {
    var i := IndexOf(s, sep);
    if i != -1 {
      var head, tail := s[..i], SubstrFrom(s, i + 1);
      SubstrFromIsSuffix(s, i + 1);
      assert s == head + [sep] + tail;
      SplitJoin(tail, sep);
      var ts := [head] + Split(tail, sep);
      assert ts[1..] == Split(tail, sep);
      assert Join(ts, sep) == head + [sep] + Join(Split(tail, sep), sep);
    }
  }

  /** The characters `String.prototype.trim` removes: white space and line terminators. */
  predicate IsJsWhitespace(c: char)
  {
    if c <= ' ' then c == ' ' || '\t' <= c <= '\r'
    else '\U{00A0}' <= c && IsWideSpace(c)
  }

  /** The white space and line terminators above U+00A0. */
  predicate IsWideSpace(c: char)
  {
    c == '\U{00A0}' || c == '\U{1680}' || ('\U{2000}' <= c <= '\U{200A}')
    || c == '\U{2028}' || c == '\U{2029}' || c == '\U{202F}' || c == '\U{205F}'
    || c == '\U{3000}' || c == '\U{FEFF}'
  }

  /** Index of the first character `trim` keeps. */
  function TrimStart(s: string): (k: nat)
    ensures k <= |s|
    ensures k == |s| || !IsJsWhitespace(s[k])
  {
    SkipWhitespace(s, 0)
  }

  /** The first index at or after `i` that is not white space, or the length. */
  function SkipWhitespace(s: string, i: nat): (k: nat)
    requires i <= |s|
    ensures i <= k <= |s|
    ensures k == |s| || !IsJsWhitespace(s[k])
    decreases |s| - i
  {
    if i < |s| && IsJsWhitespace(s[i]) then SkipWhitespace(s, i + 1) else i
  }

  /** One past the last character `trim` keeps. */
  function TrimEnd(s: string): (k: nat)
    ensures k <= |s|
    ensures k == 0 || !IsJsWhitespace(s[k - 1])
  {
    if |s| > 0 && IsJsWhitespace(s[|s| - 1]) then TrimEnd(s[..|s| - 1]) else |s|
  }

  lemma {:induction false} SkipWhitespaceSkips(s: string, i: nat)
    requires i <= |s|
    ensures forall j :: i <= j < SkipWhitespace(s, i) ==> IsJsWhitespace(s[j])
    decreases |s| - i
  {
    if i < |s| && IsJsWhitespace(s[i]) {
      SkipWhitespaceSkips(s, i + 1);
    }
  }

  /** Everything before `TrimStart` is white space. */
  lemma TrimStartSkipsWhitespace(s: string)
    ensures forall j :: 0 <= j < TrimStart(s) ==> IsJsWhitespace(s[j])
  {
    SkipWhitespaceSkips(s, 0);
  }

  /** Everything from `TrimEnd` on is white space. */
  lemma {:induction false} TrimEndSkipsWhitespace(s: string)
    ensures forall j :: TrimEnd(s) <= j < |s| ==> IsJsWhitespace(s[j])
    decreases |s|
  {
    if |s| > 0 && IsJsWhitespace(s[|s| - 1]) {
      TrimEndSkipsWhitespace(s[..|s| - 1]);
      forall j | TrimEnd(s) <= j < |s| - 1 ensures IsJsWhitespace(s[j]) {
        assert s[j] == s[..|s| - 1][j];
      }
    }
  }

  /** `s.trim()`. */
  function Trim(s: string): (r: string)
    ensures |r| <= |s|
  {
    var a := TrimStart(s);
    var b := TrimEnd(s);
    if a < b then SubstrFrom(s[..b], a) else ""
  }

  /** What `trim` keeps is the slice between the two ends. */
  lemma TrimIsSlice(s: string)
    requires TrimStart(s) < TrimEnd(s)
    ensures Trim(s) == s[TrimStart(s)..TrimEnd(s)]
  {
    var a, b := TrimStart(s), TrimEnd(s);
    SubstrFromIsSuffix(s[..b], a);
    assert s[..b][a..] == s[a..b];
  }

  /** `trim` removes white space from the two ends, all of it and nothing else. */
  lemma TrimIsInfix(s: string)
    ensures Trim(s) == "" || (!IsJsWhitespace(Trim(s)[0]) && !IsJsWhitespace(Trim(s)[|Trim(s)| - 1]))
    ensures exists a, b :: 0 <= a <= b <= |s| && Trim(s) == s[a..b]
                           && (forall j :: 0 <= j < a ==> IsJsWhitespace(s[j]))
                           && (forall j :: b <= j < |s| ==> IsJsWhitespace(s[j]))
  {
    var a := TrimStart(s);
    var b := TrimEnd(s);
    TrimStartSkipsWhitespace(s);
    TrimEndSkipsWhitespace(s);
    if a < b {
      TrimIsSlice(s);
    } else {
      assert b == 0;
      assert Trim(s) == s[0..0];
    }
  }

  /** The value of a JavaScript `Number` as far as the engine uses it. */
  datatype JsNumber = NaN | Num(value: nat)

  /** `x == NaN` in JavaScript: NaN equals nothing, itself included. */
  predicate LooselyEqualsNaN(x: JsNumber)
  {
    false
  }

  /** `i < n` for a loop counter `i` and a JavaScript number `n`: every comparison with NaN is false. */
  predicate LessThan(i: nat, n: JsNumber)
  {
    n.Num? && i < n.value
  }

  predicate IsDigit(c: char) { '0' <= c <= '9' }

  function DigitValue(c: char): nat
    requires IsDigit(c)
  {
    (c as int) - ('0' as int)
  }

  function DigitChar(d: nat): (c: char)
    requires d < 10
    ensures IsDigit(c) && DigitValue(c) == d
  {
    (('0' as int) + d) as char
  }

  /** Every character is a decimal digit. */
  predicate AllDigits(t: string)
    decreases |t|
  {
    |t| == 0 || (IsDigit(t[|t| - 1]) && AllDigits(t[..|t| - 1]))
  }

  lemma {:induction false} AllDigitsIff(t: string)
    ensures AllDigits(t) <==> forall j :: 0 <= j < |t| ==> IsDigit(t[j])
    decreases |t|
  {
    if |t| > 0 {
      var init := t[..|t| - 1];
      AllDigitsIff(init);
      assert forall j :: 0 <= j < |init| ==> init[j] == t[j];
    }
  }

  /** The value of a run of decimal digits. */
  function DecimalValue(t: string): nat
    requires AllDigits(t)
  {
    if |t| == 0 then 0 else DecimalValue(t[..|t| - 1]) * 10 + DigitValue(t[|t| - 1])
  }

  /** `Number(s)` for the counts this model reads: blank text is 0, a run of decimal
      digits (after trimming) is its value, and any other text is NaN. JavaScript also
      reads signs, fractions, exponents, hexadecimal and "Infinity"; those texts are NaN
      here (see `NumberOfNonNumeric` for the texts where both agree). */
  function ToNumber(s: string): JsNumber
  {
    var t := Trim(s);
    if t == "" then Num(0)
    else if AllDigits(t) then Num(DecimalValue(t))
    else NaN
  }

  /** The decimal text JavaScript writes for a natural number (`${n}`). */
  function NatToDecimal(n: nat): (r: string)
    ensures |r| >= 1
    ensures AllDigits(r)
  {
    if n < 10 then [DigitChar(n)]
    else
      var init := NatToDecimal(n / 10);
      assert (init + [DigitChar(n % 10)])[..|init|] == init;
      init + [DigitChar(n % 10)]
  }

  /** Blank text, the empty string included, reads as 0. */
  lemma BlankIsZero(s: string)
    requires forall j :: 0 <= j < |s| ==> IsJsWhitespace(s[j])
    ensures ToNumber(s) == Num(0)
  {
  }

  /** A run of digits reads as its decimal value. */
  lemma NumberOfDigits(t: string)
    requires |t| >= 1 && AllDigits(t)
    ensures ToNumber(t) == Num(DecimalValue(t))
  {
    AllDigitsIff(t);
    TrimKeepsDigits(t);
  }

  lemma TrimKeepsDigits(t: string)
    requires |t| >= 1 && IsDigit(t[0]) && IsDigit(t[|t| - 1])
    ensures Trim(t) == t
  {
    assert TrimStart(t) == 0;
    assert TrimEnd(t) == |t|;
    TrimIsSlice(t);
    assert t[0..|t|] == t;
  }

  /** Text that cannot start a JavaScript numeric literal is NaN: its first character is
      not white space, a digit, a sign or a decimal point, and it does not start with
      "Infinity". */
  lemma NumberOfNonNumeric(t: string)
    requires |t| >= 1 && !IsDigit(t[0]) && !IsJsWhitespace(t[0])
    requires t[0] != '+' && t[0] != '-' && t[0] != '.'
    requires !(|t| >= 8 && t[..8] == "Infinity")
    ensures ToNumber(t) == NaN
  {
    TrimEndSkipsWhitespace(t);
    assert TrimStart(t) == 0;
    assert TrimEnd(t) >= 1;
    TrimIsSlice(t);
    assert Trim(t)[0] == t[0];
    AllDigitsIff(Trim(t));
  }

  /** `Number` reads back the decimal text of every natural number. */
  lemma NumberOfDecimal(n: nat)
    ensures ToNumber(NatToDecimal(n)) == Num(n)
  {
    NumberOfDigits(NatToDecimal(n));
    DecimalValueOfDecimal(n);
  }

  /** `indexOf` finds the first occurrence, after a prefix that lacks it. */
  lemma IndexOfAfter<T>(p: seq<T>, x: T, rest: seq<T>)
    requires x !in p
    ensures IndexOf(p + [x] + rest, x) == |p|
  {
    var s := p + [x] + rest;
    assert s[|p|] == x;
    IndexOfAbsent(s, x);
    IndexOfIsFirst(s, x);
  }

  /** Removing the first `c` from a text that ends in its only `c` drops that ending. */
  lemma ReplaceFirstAtEnd(s: string, c: char)
    requires c !in s
    ensures ReplaceFirst(s + [c], c) == s
  {
    IndexOfAfter(s, c, []);
    assert s + [c] + [] == s + [c];
    assert (s + [c])[..|s|] == s;
  }

  lemma {:induction false} DecimalValueOfDecimal(n: nat)
    ensures DecimalValue(NatToDecimal(n)) == n
  {
    if n >= 10 {
      var r := NatToDecimal(n);
      assert r[..|r| - 1] == NatToDecimal(n / 10);
      DecimalValueOfDecimal(n / 10);
    }
  }

  /** Distinct numbers print as distinct texts. */
  lemma NatToDecimalInjective(m: nat, n: nat)
    requires m != n
    ensures NatToDecimal(m) != NatToDecimal(n)
  {
    DecimalValueOfDecimal(m);
    DecimalValueOfDecimal(n);
  }
}
