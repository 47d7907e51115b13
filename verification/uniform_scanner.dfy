/** What `ShaderProgram.parseUniforms` (src/gfx/ShaderProgram.ts) reads out of shader
    source: a reference definition of the single-pass scan, one step per position
    the scanner's cursor visits, with its crash and its endless loop as outcomes. */
module UniformScanner {
  import opened Js
  import opened Chars
  import StringReader

  /** A declaration the scan registers: a plain name, or an array base with the text
      its count is read from. */
  datatype Decl = Plain(name: string) | ArrayDecl(base: string, countText: string)

  /** How the scan ends: it runs out of input or meets a statement starting with
      "void"; a declaration with fewer than three tokens throws; a character of no
      class between statements is never consumed and the loop never ends. */
  datatype Halt = Finished | Crashed | Hangs(at: nat)

  /** The names declared, in order, and how the scan ended. */
  datatype Scan = Scan(names: seq<string>, halt: Halt)

  predicate IsTerminator(ch: char)
  {
    ch == ';' || ch == '\0'
  }

  predicate StartsWith(s: string, prefix: string)
  {
    |prefix| <= |s| && s[..|prefix|] == prefix
  }

  /** Where the statement starting at `i` ends: the first `;` or NUL at or after `i`,
      or the end of the source. */
  function StatementEnd(src: string, i: nat): (e: nat)
    requires i <= |src|
    ensures i <= e <= |src|
    ensures e < |src| ==> IsTerminator(src[e])
    ensures forall j :: i <= j < e ==> !IsTerminator(src[j])
    decreases |src| - i
  {
    if i == |src| || IsTerminator(src[i]) then i else StatementEnd(src, i + 1)
  }

  /** The name a declaration statement gives: the third single-space token of the
      trimmed text, None when there is none. */
  function NameToken(text: string): Option<string>
  {
    var tokens := Split(Trim(text), ' ');
    if |tokens| < 3 then None else Some(tokens[2])
  }

  /** What a declared name registers: with a `[` at index `k` in it, an array whose
      base is the text before index `k - 1` and whose count text is the rest with the
      first `[` and the first `]` removed; otherwise the name itself. */
  function DeclOf(rname: string): Decl
  {
    var k := IndexOf(rname, '[');
    if k == -1 then Plain(rname)
    else ArrayDecl(Substr(rname, 0, k - 1), ReplaceFirst(ReplaceFirst(SubstrFrom(rname, k + 1), '['), ']'))
  }

  /** The scan from position `i`, where the scanner's current character is the one at
      `i` (EOF past the end). */
  function ScanFrom(src: string, i: nat): Scan
    requires i <= |src|
    decreases |src| - i
  {
    if i == |src| || src[i] == '\0' then Scan([], Finished)
    else if IsLetterOrDigit([src[i]]) then
      var e := StatementEnd(src, i);
      var text := src[i..e];
      if StartsWith(text, "void") then Scan([], Finished)
      else if StartsWith(text, "uniform") then
        match NameToken(text)
        case None => Scan([], Crashed)
        case Some(name) =>
          var rest := ScanFrom(src, e);
          Scan([name] + rest.names, rest.halt)
      else ScanFrom(src, e)
    else if IsSymbol([src[i]]) || IsWhitespace([src[i]]) then ScanFrom(src, i + 1)
    else Scan([], Hangs(i))
  }

  /** The scan of a whole source. */
  function ScanSource(src: string): Scan
  {
    ScanFrom(src, 0)
  }

  /** How many times `for (i = 0; i < n; i++)` runs for a JavaScript number `n`. */
  function Iterations(n: JsNumber): nat
  {
    if n.Num? then n.value else 0
  }

  /** The name `addUniformArray` builds for entry `k`: `${name}[${k}]`. */
  function EntryName(base: string, k: nat): string
  {
    base + "[" + NatToDecimal(k) + "]"
  }

  /** The uniform names `addUniformArray(base, n)` asks GL for, in order. */
  function ArrayNames(base: string, n: JsNumber): seq<string>
  {
    EntryList(base, Iterations(n))
  }

  /** The entry names `base[0]` to `base[m-1]`, in order. */
  function EntryList(base: string, m: nat): (r: seq<string>)
    ensures |r| == m
  {
    if m == 0 then [] else EntryList(base, m - 1) + [EntryName(base, m - 1)]
  }

  lemma {:induction false} EntryListAt(base: string, m: nat, k: nat)
    requires k < m
    ensures EntryList(base, m)[k] == EntryName(base, k)
  {
    if k < m - 1 {
      EntryListAt(base, m - 1, k);
    }
  }

  /** The uniform names a declaration asks GL for, in order: an array's count is the
      `Number` of its count text. */
  function DeclNames(d: Decl): seq<string>
  {
    match d
    case Plain(name) => [name]
    case ArrayDecl(base, countText) => ArrayNames(base, ToNumber(countText))
  }

  /** The uniform names a declared name asks GL for, in order. */
  function Registered(rname: string): seq<string>
  {
    DeclNames(DeclOf(rname))
  }

  /** The uniform names a sequence of declared names asks GL for, in order. */
  function Entries(rnames: seq<string>): seq<string>
  {
    if rnames == [] then [] else Entries(rnames[..|rnames| - 1]) + Registered(rnames[|rnames| - 1])
  }

  lemma EntriesSnoc(rnames: seq<string>, rname: string)
    ensures Entries(rnames + [rname]) == Entries(rnames) + Registered(rname)
  {
    assert (rnames + [rname])[..|rnames|] == rnames;
  }

  lemma {:induction false} EntriesAppend(a: seq<string>, b: seq<string>)
    ensures Entries(a + b) == Entries(a) + Entries(b)
    decreases |b|
  {
    if b == [] {
      assert a + b == a;
    } else {
      var b' := b[..|b| - 1];
      var last := b[|b| - 1];
      assert a + b == (a + b') + [last];
      assert b == b' + [last];
      EntriesSnoc(a + b', last);
      EntriesAppend(a, b');
      EntriesSnoc(b', last);
      AppendAssoc(Entries(a), Entries(b'), Registered(last));
    }
  }

  /** The scan where the input ends (EOF or NUL). */
  lemma ScanAtEnd(src: string, i: nat)
    requires i <= |src| && (i == |src| || src[i] == '\0')
    ensures ScanFrom(src, i) == Scan([], Finished)
  {
  }

  /** The scan over a symbol or white space between statements. */
  lemma ScanSkips(src: string, i: nat)
    requires i < |src| && src[i] != '\0' && !IsLetterOrDigit([src[i]])
    requires IsSymbol([src[i]]) || IsWhitespace([src[i]])
    ensures ScanFrom(src, i) == ScanFrom(src, i + 1)
  {
  }

  /** The scan at the first letter or digit of a statement, by what its text starts with. */
  lemma ScanStatement(src: string, i: nat)
    requires i < |src| && IsLetterOrDigit([src[i]])
    ensures i < StatementEnd(src, i)
    ensures var e := StatementEnd(src, i);
      var text := src[i..e];
      ScanFrom(src, i) ==
        if StartsWith(text, "void") then Scan([], Finished)
        else if !StartsWith(text, "uniform") then ScanFrom(src, e)
        else if NameToken(text).None? then Scan([], Crashed)
        else Scan([NameToken(text).value] + ScanFrom(src, e).names, ScanFrom(src, e).halt)
  {
  }

  lemma StartsWithSnoc(s: string, x: char, p: string)
    ensures StartsWith(s + [x], p) <==> StartsWith(s, p) || s + [x] == p
  {
    if |p| <= |s| {
      assert (s + [x])[..|p|] == s[..|p|];
    } else if |p| == |s| + 1 {
      assert (s + [x])[..|p|] == s + [x];
    }
  }

  lemma StartsWithExtends(t: string, u: string, p: string)
    requires |t| <= |u| && u[..|t|] == t && StartsWith(t, p)
    ensures StartsWith(u, p)
  {
    assert u[..|p|] == t[..|p|];
  }

  /** `StatementEnd` is the first terminator: pinned down by where the terminator is. */
  lemma StatementEndAt(src: string, i: nat, e: nat)
    requires i <= e <= |src|
    requires e < |src| ==> IsTerminator(src[e])
    requires forall j :: i <= j < e ==> !IsTerminator(src[j])
    ensures StatementEnd(src, i) == e
  {
  }

  /** Once a statement starts with "void", scanning stops for good: nothing after it
      is declared, whatever follows. */
  lemma {:induction false} VoidStopsScan(src: string, i: nat)
    requires i < |src| && IsLetterOrDigit([src[i]])
    requires StartsWith(src[i..], "void")
    ensures ScanFrom(src, i) == Scan([], Finished)
  {
    var e := StatementEnd(src, i);
    assert src[i..i + 4] == "void";
    forall j | i <= j < i + 4 ensures !IsTerminator(src[j]) {
      assert src[j] == "void"[j - i];
    }
    assert e >= i + 4;
    assert src[i..e][..4] == src[i..i + 4];
  }

  lemma PrefixKeepsNoPrefix(s: string, t: string, p: string)
    requires |t| <= |s| && s[..|t|] == t
    requires !StartsWith(s, p)
    ensures !StartsWith(t, p)
  {
    if |p| <= |t| {
      assert s[..|p|] == t[..|p|];
    }
  }

  /** A statement is a declaration exactly when its text starts with "uniform": a
      source with no "uniform" anywhere from `i` on declares nothing. */
  lemma {:induction false} NoUniformNoDecls(src: string, i: nat)
    requires i <= |src|
    requires forall k :: i <= k <= |src| ==> !StartsWith(src[k..], "uniform")
    ensures ScanFrom(src, i).names == []
    decreases |src| - i
  {
    if i == |src| || src[i] == '\0' {
    } else if IsLetterOrDigit([src[i]]) {
      var e := StatementEnd(src, i);
      var text := src[i..e];
      PrefixKeepsNoPrefix(src[i..], text, "uniform");
      assert !StartsWith(text, "uniform");
      if !StartsWith(text, "void") {
        NoUniformNoDecls(src, e);
      }
    } else if IsSymbol([src[i]]) || IsWhitespace([src[i]]) {
      NoUniformNoDecls(src, i + 1);
    }
  }

  /** Between statements a character of no class is never consumed: the scan hangs
      there, having registered nothing more. */
  lemma HangsOnUnclassified(src: string, i: nat)
    requires i < |src| && src[i] != '\0'
    requires !IsLetterOrDigit([src[i]]) && !IsSymbol([src[i]]) && !IsWhitespace([src[i]])
    ensures ScanFrom(src, i) == Scan([], Hangs(i))
  {
  }

  /** A declaration is read from the statement's own text: a source that starts with
      a declaration statement `text`, ended by `;` or NUL or the end of the source,
      registers the third token of `text` first. */
  lemma FirstDeclaration(text: string, rest: string, name: string)
    requires StartsWith(text, "uniform")
    requires forall j :: 0 <= j < |text| ==> !IsTerminator(text[j])
    requires rest == "" || IsTerminator(rest[0])
    requires NameToken(text) == Some(name)
    ensures ScanSource(text + rest).names != [] && ScanSource(text + rest).names[0] == name
  {
    StatementOfText(text, rest);
    UniformStart(text, rest);
    DeclarationStep(text + rest, 0, name);
  }

  /** A text starting with "uniform" starts with a letter and not with "void". */
  lemma UniformStart(text: string, rest: string)
    requires StartsWith(text, "uniform")
    ensures |text + rest| > 0 && IsLetterOrDigit([(text + rest)[0]]) && !StartsWith(text, "void")
  {
    assert text[..7] == "uniform";
    assert (text + rest)[0] == text[0] == 'u';
  }

  /** A text free of terminators, followed by a terminator or nothing, is one statement. */
  lemma StatementOfText(text: string, rest: string)
    requires forall j :: 0 <= j < |text| ==> !IsTerminator(text[j])
    requires rest == "" || IsTerminator(rest[0])
    ensures StatementEnd(text + rest, 0) == |text| && (text + rest)[0..|text|] == text
  {
    StatementEndAt(text + rest, 0, |text|);
  }

  /** One declaration statement: its name, then whatever the rest of the source gives. */
  lemma DeclarationStep(src: string, i: nat, name: string)
    requires i < |src| && IsLetterOrDigit([src[i]])
    requires StartsWith(src[i..StatementEnd(src, i)], "uniform")
    requires !StartsWith(src[i..StatementEnd(src, i)], "void")
    requires NameToken(src[i..StatementEnd(src, i)]) == Some(name)
    ensures ScanFrom(src, i).names == [name] + ScanFrom(src, StatementEnd(src, i)).names
  {
  }

  /** `DeclOf` of a name whose first `[` is at `k`, given its base and count texts. */
  lemma DeclOfArrayAt(rname: string, k: nat, base: string, count: string)
    requires IndexOf(rname, '[') == k
    requires Substr(rname, 0, k - 1) == base
    requires ReplaceFirst(ReplaceFirst(SubstrFrom(rname, k + 1), '['), ']') == count
    ensures DeclOf(rname) == ArrayDecl(base, count)
  {
  }

  /** `DeclOf` of a name with no `[`. */
  lemma DeclOfPlain(rname: string)
    requires IndexOf(rname, '[') == -1
    ensures DeclOf(rname) == Plain(rname)
  {
  }

  /** The first `[` of `base[count]` is the one after the base, and the first `[` and
      the first `]` removed from what follows it leave exactly `count`. */
  lemma CountText(base: string, count: string)
    requires '[' !in base && '[' !in count && ']' !in count
    ensures IndexOf(base + "[" + count + "]", '[') == |base|
    ensures ReplaceFirst(ReplaceFirst(SubstrFrom(base + "[" + count + "]", |base| + 1), '['), ']') == count
  {
    var tail := count + [']'];
    var rname := base + ['['] + tail;
    assert rname == base + "[" + count + "]";
    IndexOfAfter(base, '[', tail);
    SubstrFromIsSuffix(rname, |base| + 1);
    assert rname[|base| + 1..] == tail;
    assert '[' !in tail;
    IndexOfAbsent(tail, '[');
    ReplaceFirstAtEnd(count, ']');
  }

  /** A name `base[count]` with no other `[` and no `]` in the count registers an array
      under the base cut one character short (the cut is at one before the `[`), with
      the `Number` of the count text. */
  lemma ArrayNameParts(base: string, count: string)
    requires '[' !in base && '[' !in count && ']' !in count
    ensures DeclOf(base + "[" + count + "]") == ArrayDecl(Substr(base, 0, |base| - 1), count)
  {
    CountText(base, count);
    BaseText(base, count);
    DeclOfArrayAt(base + "[" + count + "]", |base|, Substr(base, 0, |base| - 1), count);
  }

  /** Cutting `base[count]` one before its `[` cuts the base one short. */
  lemma BaseText(base: string, count: string)
    ensures Substr(base + "[" + count + "]", 0, |base| - 1) == Substr(base, 0, |base| - 1)
  {
    if |base| >= 1 {
      var rname := base + "[" + count + "]";
      SubstrIsPrefix(rname, |base| - 1);
      SubstrIsPrefix(base, |base| - 1);
      assert rname[..|base| - 1] == base[..|base| - 1];
    }
  }

  /** An array declaration `base[digits]` registers under the base with its last
      character dropped, with the decimal value of the digits as its count. */
  lemma ArrayDeclaration(base: string, digits: string)
    requires |base| >= 1 && '[' !in base
    requires |digits| >= 1 && AllDigits(digits)
    ensures DeclOf(base + "[" + digits + "]") == ArrayDecl(base[..|base| - 1], digits)
  {
    DigitsHaveNoBrackets(digits);
    ArrayNameParts(base, digits);
    SubstrIsPrefix(base, |base| - 1);
  }

  /** ... and asks GL for that many entries of the cut base. */
  lemma ArrayRegistered(base: string, digits: string)
    requires |base| >= 1 && '[' !in base
    requires |digits| >= 1 && AllDigits(digits)
    ensures Registered(base + "[" + digits + "]") == ArrayNames(base[..|base| - 1], Num(DecimalValue(digits)))
  {
    ArrayDeclaration(base, digits);
    NumberOfDigits(digits);
  }

  lemma DigitsHaveNoBrackets(digits: string)
    requires AllDigits(digits)
    ensures '[' !in digits && ']' !in digits
  {
    AllDigitsIff(digits);
    forall j | 0 <= j < |digits| ensures digits[j] != '[' && digits[j] != ']' {
      assert IsDigit(digits[j]);
    }
  }

  /** An array of count `n` asks for the entries `base[0]` to `base[n-1]`, in order; with
      the base that `ArrayDeclaration` leaves for a one-letter name such as `b[3]`,
      the entries are `[0]`, `[1]`, `[2]`. */
  lemma EntryNames(base: string, n: nat)
    ensures |ArrayNames(base, Num(n))| == n
    ensures forall k :: 0 <= k < n ==> ArrayNames(base, Num(n))[k] == base + "[" + NatToDecimal(k) + "]"
    ensures base == "" ==> forall k :: 0 <= k < n ==> ArrayNames(base, Num(n))[k] == "[" + NatToDecimal(k) + "]"
  {
    forall k | 0 <= k < n
      ensures ArrayNames(base, Num(n))[k] == base + "[" + NatToDecimal(k) + "]"
    {
      EntryListAt(base, n, k);
    }
    if base == "" {
      assert base + "[" == "[";
    }
  }

  /** A count that cannot start a JavaScript number (see `NumberOfNonNumeric`) gives NaN,
      and the entry loop never runs. */
  lemma NonNumericCountRegistersNothing(base: string, count: string)
    requires '[' !in base && '[' !in count && ']' !in count
    requires |count| >= 1 && !IsDigit(count[0]) && !IsJsWhitespace(count[0])
    requires count[0] != '+' && count[0] != '-' && count[0] != '.'
    requires !(|count| >= 8 && count[..8] == "Infinity")
    ensures Registered(base + "[" + count + "]") == []
  {
    ArrayNameParts(base, count);
    NumberOfNonNumeric(count);
  }
}
