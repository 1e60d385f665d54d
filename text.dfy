/** The Python string built-ins the core relies on (`strip`, `split`, `join`, `upper`,
    `lower`, `int`, string ordering), written out on `seq<char>`. */
module Text {
  import opened Common

  /** The characters for which Python's `str.isspace()` holds. */
  predicate IsSpace(c: char) {
    c == ' ' || '\t' <= c <= '\r' || '\U{1C}' <= c <= '\U{1F}' || c == '\U{85}' || c == '\U{A0}'
    || c == '\U{1680}' || '\U{2000}' <= c <= '\U{200A}' || c == '\U{2028}' || c == '\U{2029}'
    || c == '\U{202F}' || c == '\U{205F}' || c == '\U{3000}'
  }

  predicate NoSpace(s: string) {
    forall i :: 0 <= i < |s| ==> !IsSpace(s[i])
  }

  /** `s.lstrip()`: the longest suffix of `s` that does not start with whitespace. */
  function TrimStart(s: string): (r: string)
    ensures |r| <= |s| && r == s[|s| - |r|..]
    ensures forall i :: 0 <= i < |s| - |r| ==> IsSpace(s[i])
    ensures r != [] ==> !IsSpace(r[0])
  {
    if s != [] && IsSpace(s[0]) then
      var r := TrimStart(s[1..]);
      assert forall i :: 1 <= i < |s| - |r| ==> s[i] == s[1..][i - 1];
      r
    else s
  }

  /** `s.rstrip()`: the longest prefix of `s` that does not end with whitespace. */
  function TrimEnd(s: string): (r: string)
    ensures |r| <= |s| && r == s[..|r|]
    ensures forall i :: |r| <= i < |s| ==> IsSpace(s[i])
    ensures r != [] ==> !IsSpace(r[|r| - 1])
  {
    if s != [] && IsSpace(s[|s| - 1]) then TrimEnd(s[..|s| - 1]) else s
  }

  /** `s.strip()`. */
  function Strip(s: string): (r: string)
    ensures r != [] ==> !IsSpace(r[0]) && !IsSpace(r[|r| - 1])
    ensures r == [] <==> forall i :: 0 <= i < |s| ==> IsSpace(s[i])
    ensures NoSpace(s) ==> r == s
  {
    TrimEnd(TrimStart(s))
  }

  /** A string with no whitespace at either end is its own `strip()`. */
  lemma {:induction false} StripUnchanged(s: string)
    requires s != [] && !IsSpace(s[0]) && !IsSpace(s[|s| - 1])
    ensures Strip(s) == s
  {
  }

  lemma {:induction false} StripEmpty()
    ensures Strip([]) == []
  {
  }

  /** `strip()` is idempotent. */
  lemma {:induction false} StripTwice(s: string)
    ensures Strip(Strip(s)) == Strip(s)
  {
    var t := Strip(s);
    if t != [] {
      StripUnchanged(t);
    } else {
      StripEmpty();
    }
  }

  /** `sep.join(parts)`. */
  function Join(parts: seq<string>, sep: string): string
  {
    if |parts| == 0 then []
    else if |parts| == 1 then parts[0]
    else parts[0] + sep + Join(parts[1..], sep)
  }

  lemma {:induction false} JoinConsHead(c: char, parts: seq<string>, sep: string)
    requires |parts| >= 1
    ensures Join([[c] + parts[0]] + parts[1..], sep) == [c] + Join(parts, sep)
  {
    var ps := [[c] + parts[0]] + parts[1..];
    assert ps[1..] == parts[1..];
  }

  /** `s.split(sep)` for a one-character separator: the pieces between separators,
      empty pieces included. */
  function Split(s: string, sep: char): (parts: seq<string>)
    ensures |parts| >= 1
    ensures forall i :: 0 <= i < |parts| ==> sep !in parts[i]
    ensures Join(parts, [sep]) == s
  {
    if s == [] then [[]]
    else
      var rest := Split(s[1..], sep);
      if s[0] == sep then
        assert [sep] + Join(rest, [sep]) == s;
        [[]] + rest
      else
        JoinConsHead(s[0], rest, [sep]);
        assert [s[0]] + s[1..] == s;
        [[s[0]] + rest[0]] + rest[1..]
  }

  lemma {:induction false} SplitPrefix(a: string, t: string, sep: char)
    requires sep !in a
    ensures Split(a + t, sep) == [a + Split(t, sep)[0]] + Split(t, sep)[1..]
  {
    var s := Split(t, sep);
    if a != [] {
      SplitPrefix(a[1..], t, sep);
      SplitPrefixStep(a, t, sep);
    } else {
      assert a + t == t && a + s[0] == s[0];
      assert [s[0]] + s[1..] == s;
    }
  }

  lemma {:induction false} SplitPrefixStep(a: string, t: string, sep: char)
    requires a != [] && a[0] != sep
    requires Split(a[1..] + t, sep) == [a[1..] + Split(t, sep)[0]] + Split(t, sep)[1..]
    ensures Split(a + t, sep) == [a + Split(t, sep)[0]] + Split(t, sep)[1..]
  {
    var s := Split(t, sep);
    var r := Split(a[1..] + t, sep);
    assert r[0] == a[1..] + s[0] && r[1..] == s[1..];
    assert a + t == [a[0]] + (a[1..] + t);
    SplitCons(a[0], a[1..] + t, sep);
    assert [a[0]] + (a[1..] + s[0]) == a + s[0];
  }

  /** A character other than the separator joins the first piece. */
  lemma {:induction false} SplitCons(c: char, x: string, sep: char)
    requires c != sep
    ensures Split([c] + x, sep) == [[c] + Split(x, sep)[0]] + Split(x, sep)[1..]
  {
    assert ([c] + x)[0] == c && ([c] + x)[1..] == x;
  }


  /** Splitting undoes joining when no piece holds the separator. */
  lemma {:induction false} SplitJoin(parts: seq<string>, sep: char)
    requires |parts| >= 1
    requires forall i :: 0 <= i < |parts| ==> sep !in parts[i]
    ensures Split(Join(parts, [sep]), sep) == parts
  {
    if |parts| == 1 {
      SplitPrefix(parts[0], [], sep);
      assert parts[0] + [] == parts[0];
    } else {
      var rest := Join(parts[1..], [sep]);
      assert Join(parts, [sep]) == parts[0] + ([sep] + rest);
      SplitPrefix(parts[0], [sep] + rest, sep);
      assert ([sep] + rest)[0] == sep && ([sep] + rest)[1..] == rest;
      SplitJoin(parts[1..], sep);
      assert Split([sep] + rest, sep) == [[]] + parts[1..];
      assert parts[0] + [] == parts[0];
      assert parts == [parts[0]] + parts[1..];
    }
  }

  /** The leading run of non-whitespace characters of `s`. */
  function TakeWord(s: string): (w: string)
    ensures |w| <= |s| && w == s[..|w|] && NoSpace(w)
    ensures |w| < |s| ==> IsSpace(s[|w|])
  {
    if s == [] || IsSpace(s[0]) then [] else [s[0]] + TakeWord(s[1..])
  }

  /** `s.split()` with no argument: the maximal runs of non-whitespace characters. */
  function SplitWhitespace(s: string): (tokens: seq<string>)
    ensures Words(tokens)
    decreases |s|
  {
    var t := TrimStart(s);
    if t == [] then []
    else
      assert !IsSpace(t[0]);
      var w := TakeWord(t);
      assert |w| > 0 && |t[|w|..]| < |s|;
      var rest := SplitWhitespace(t[|w|..]);
      WordsCons(w, rest);
      [w] + rest
  }

  /** Words, non-empty and without whitespace. */
  predicate Words(tokens: seq<string>)
  {
    forall i :: 0 <= i < |tokens| ==> tokens[i] != [] && NoSpace(tokens[i])
  }

  lemma {:induction false} WordsCons(w: string, rest: seq<string>)
    requires w != [] && NoSpace(w) && Words(rest)
    ensures Words([w] + rest)
  {
    forall i | 0 <= i < |rest| + 1
      ensures ([w] + rest)[i] != [] && NoSpace(([w] + rest)[i])
    {
      if i > 0 {
        assert ([w] + rest)[i] == rest[i - 1];
      }
    }
  }

  lemma {:induction false} SplitWhitespaceOfWord(b: string)
    requires b != [] && NoSpace(b)
    ensures SplitWhitespace(b) == [b]
  {
    assert TakeWord(b) == b;
    assert SplitWhitespace(b[|b|..]) == [];
  }

  lemma {:induction false} TakeWordBeforeBlank(a: string, b: string)
    requires NoSpace(a)
    ensures TakeWord(a + [' '] + b) == a
  {
    if a != [] {
      assert (a + [' '] + b)[1..] == a[1..] + [' '] + b;
      TakeWordBeforeBlank(a[1..], b);
    }
  }

  /** Two words with one blank between them split into exactly those two words. */
  lemma {:induction false} SplitWhitespaceOfPair(a: string, b: string)
    requires a != [] && NoSpace(a) && b != [] && NoSpace(b)
    ensures SplitWhitespace(a + [' '] + b) == [a, b]
  {
    var s := a + [' '] + b;
    FirstWordOfPair(a, b);
    SplitWhitespaceOfBlank(b);
    SplitWhitespaceStep(s);
    JoinTokens(SplitWhitespace(s), a, SplitWhitespace(s[|a|..]), b);
  }

  lemma {:induction false} FirstWordOfPair(a: string, b: string)
    requires a != [] && NoSpace(a)
    ensures var s := a + [' '] + b;
      s != [] && !IsSpace(s[0]) && TakeWord(s) == a && s[|a|..] == [' '] + b
  {
    var s := a + [' '] + b;
    assert s[0] == a[0];
    TakeWordBeforeBlank(a, b);
    assert s[|a|..] == [' '] + b;
  }

  lemma {:induction false} JoinTokens(tokens: seq<string>, a: string, rest: seq<string>, b: string)
    requires tokens == [a] + rest && rest == [b]
    ensures tokens == [a, b]
  {
  }

  lemma {:induction false} SplitWhitespaceStep(s: string)
    requires s != [] && !IsSpace(s[0])
    ensures SplitWhitespace(s) == [TakeWord(s)] + SplitWhitespace(s[|TakeWord(s)|..])
  {
  }

  lemma {:induction false} SplitWhitespaceOfBlank(b: string)
    requires b != [] && NoSpace(b)
    ensures SplitWhitespace([' '] + b) == [b]
  {
    assert ([' '] + b)[1..] == b;
    assert TrimStart([' '] + b) == b;
    SplitWhitespaceOfWord(b);
  }

  /** The character Python's `str.upper()` gives for `c`, on every character whose
      upper-case form is a single ASCII letter. */
  function UpperChar(c: char): char
  {
    if 'a' <= c <= 'z' then (c as int - 'a' as int + 'A' as int) as char
    else if c == '\U{131}' then 'I'
    else if c == '\U{17F}' then 'S'
    else c
  }

  /** The character Python's `str.lower()` gives for `c`, on every character whose
      lower-case form is a single ASCII letter. */
  function LowerChar(c: char): char
  {
    if 'A' <= c <= 'Z' then (c as int - 'A' as int + 'a' as int) as char
    else if c == '\U{212A}' then 'k'
    else c
  }

  function Upper(s: string): (r: string)
  {
    seq(|s|, i requires 0 <= i < |s| => UpperChar(s[i]))
  }

  function Lower(s: string): (r: string)
  {
    seq(|s|, i requires 0 <= i < |s| => LowerChar(s[i]))
  }

  /** An ASCII lower-case letter becomes its upper-case counterpart, which lowers back to
      it; every character other than a-z, U+0131 and U+017F is unchanged; no ASCII
      lower-case letter is left. */
  lemma {:induction false} UpperLetters(s: string)
    ensures |Upper(s)| == |s|
    ensures forall i :: 0 <= i < |s| && 'a' <= s[i] <= 'z' ==>
      'A' <= Upper(s)[i] <= 'Z' && LowerChar(Upper(s)[i]) == s[i]
    ensures forall i :: 0 <= i < |s| && !('a' <= s[i] <= 'z') && s[i] != '\U{131}' && s[i] != '\U{17F}' ==>
      Upper(s)[i] == s[i]
    ensures forall i :: 0 <= i < |s| ==> !('a' <= Upper(s)[i] <= 'z')
  {
  }

  lemma {:induction false} UpperIdempotent(s: string)
    ensures Upper(Upper(s)) == Upper(s)
  {
  }

  /** An ASCII upper-case letter becomes its lower-case counterpart, which uppers back to
      it; every character other than A-Z and U+212A is unchanged; no ASCII upper-case
      letter is left. */
  lemma {:induction false} LowerLetters(s: string)
    ensures |Lower(s)| == |s|
    ensures forall i :: 0 <= i < |s| && 'A' <= s[i] <= 'Z' ==>
      'a' <= Lower(s)[i] <= 'z' && UpperChar(Lower(s)[i]) == s[i]
    ensures forall i :: 0 <= i < |s| && !('A' <= s[i] <= 'Z') && s[i] != '\U{212A}' ==>
      Lower(s)[i] == s[i]
    ensures forall i :: 0 <= i < |s| ==> !('A' <= Lower(s)[i] <= 'Z')
  {
  }

  lemma {:induction false} LowerIdempotent(s: string)
    ensures Lower(Lower(s)) == Lower(s)
  {
  }

  /** Python's `a <= b` on strings: lexicographic by code point. */
  predicate LexLe(a: string, b: string)
  {
    if a == [] then true
    else if b == [] then false
    else if a[0] != b[0] then a[0] < b[0]
    else LexLe(a[1..], b[1..])
  }

  lemma {:induction false} LexLeTotal(a: string, b: string)
    ensures LexLe(a, b) || LexLe(b, a)
  {
    if a != [] && b != [] && a[0] == b[0] {
      LexLeTotal(a[1..], b[1..]);
    }
  }

  lemma {:induction false} LexLeTransitive(a: string, b: string, c: string)
    requires LexLe(a, b) && LexLe(b, c)
    ensures LexLe(a, c)
  {
    if a != [] && b != [] && c != [] && a[0] == b[0] && b[0] == c[0] {
      LexLeTransitive(a[1..], b[1..], c[1..]);
    }
  }

  predicate IsDigit(c: char) {
    '0' <= c <= '9'
  }

  predicate AllDigits(s: string) {
    forall i :: 0 <= i < |s| ==> IsDigit(s[i])
  }

  function DigitValue(c: char): nat
    requires IsDigit(c)
  {
    c as int - '0' as int
  }

  /** The value of a run of decimal digits, most significant first. */
  function DigitsValue(s: string): nat
    requires AllDigits(s)
  {
    if s == [] then 0 else 10 * DigitsValue(s[..|s| - 1]) + DigitValue(s[|s| - 1])
  }

  /** `int(s)` on a string: surrounding whitespace, an optional sign, then ASCII digits;
      `None` where Python raises ValueError. */
  function ParseInt(s: string): (r: Option<int>)
    ensures r.Some? ==> Strip(s) != []
  {
    ParseNumeral(Strip(s))
  }

  /** An optional sign, then ASCII digits, with nothing else. */
  function ParseNumeral(t: string): (r: Option<int>)
    ensures r.Some? ==> t != []
  {
    if |t| >= 2 && (t[0] == '-' || t[0] == '+') && AllDigits(t[1..]) then
      var v: int := DigitsValue(t[1..]);
      Some(if t[0] == '-' then -v else v)
    else if |t| >= 1 && AllDigits(t) then Some(DigitsValue(t))
    else None
  }

  /** `str(n)` for a natural number. */
  function DecimalText(n: nat): (s: string)
    ensures |s| >= 1 && AllDigits(s)
  {
    var d := ['0' + (n % 10) as char];
    if n < 10 then d else DecimalText(n / 10) + d
  }

  lemma {:induction false} DecimalTextValue(n: nat)
    ensures DigitsValue(DecimalText(n)) == n
  {
    if n >= 10 {
      var s := DecimalText(n);
      assert s[..|s| - 1] == DecimalText(n / 10);
      DecimalTextValue(n / 10);
    }
  }

  /** Whitespace around the numeral does not change what `int()` reads. */
  lemma {:induction false} ParseIntIgnoresPadding(s: string)
    ensures ParseInt(Strip(s)) == ParseInt(s)
  {
    StripTwice(s);
  }

  /** A bare run of ASCII digits reads as its decimal value. */
  lemma {:induction false} ParseIntDigits(s: string)
    requires s != [] && AllDigits(s)
    ensures ParseInt(s) == Some(DigitsValue(s))
  {
    assert !IsSpace(s[0]) && !IsSpace(s[|s| - 1]);
    StripUnchanged(s);
  }

  /** A "-" followed by ASCII digits reads as the negated value of the digits. */
  lemma {:induction false} ParseIntNegative(d: string)
    requires d != [] && AllDigits(d)
    ensures ParseInt("-" + d) == Some(-(DigitsValue(d) as int))
  {
    var s := "-" + d;
    assert s[1..] == d && s[|s| - 1] == d[|d| - 1];
    assert !IsSpace(s[0]) && !IsSpace(s[|s| - 1]);
    StripUnchanged(s);
  }

  /** `int("-" + str(n)) == -n` for a natural number. */
  lemma {:induction false} ParseNegatedDecimalText(n: nat)
    ensures ParseInt("-" + DecimalText(n)) == Some(-(n as int))
  {
    var d := DecimalText(n);
    assert DigitsValue(d) == n by { DecimalTextValue(n); }
    assert ParseInt("-" + d) == Some(-(DigitsValue(d) as int)) by { ParseIntNegative(d); }
  }

  /** `int(str(n)) == n` for a natural number. */
  lemma {:induction false} ParseDecimalText(n: nat)
    ensures ParseInt(DecimalText(n)) == Some(n)
  {
    DecimalTextValue(n);
    ParseIntDigits(DecimalText(n));
  }
}
