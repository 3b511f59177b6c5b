/**
 * The Python string operations the mail tools rely on, stated over `seq<char>`.
 * Character classes are ASCII: `\s`, `\w`, `str.lower()` and `int()` are
 * approximated on the ASCII range (see README, "Left out").
 */
module PyText {
  import opened Wrappers

  /** ASCII whitespace: what `bytes.split()` splits on and what `\s` matches here. */
  predicate IsSpace(c: char) {
    c == ' ' || c == '\t' || c == '\n' || c == '\r' || c == '\U{0B}' || c == '\U{0C}'
  }

  predicate NotSpace(c: char) {
    !IsSpace(c)
  }

  /** The regex class `\w` on ASCII: letters, digits and the underscore. */
  predicate IsWordChar(c: char) {
    ('a' <= c <= 'z') || ('A' <= c <= 'Z') || ('0' <= c <= '9') || c == '_'
  }

  predicate IsDigit(c: char) {
    '0' <= c <= '9'
  }

  /** `str.lower()` on one character (ASCII). */
  function LowerChar(c: char): char {
    if 'A' <= c <= 'Z' then (c as int - 'A' as int + 'a' as int) as char else c
  }

  function Lower(s: string): string {
    seq(|s|, i requires 0 <= i < |s| => LowerChar(s[i]))
  }

  // ---------------------------------------------------------------------------
  // Substrings: `sub in s` and `s.find(sub)`
  // ---------------------------------------------------------------------------

  predicate OccursAt(s: string, sub: string, i: int) {
    0 <= i && i + |sub| <= |s| && s[i..i + |sub|] == sub
  }

  /** The leftmost occurrence of `sub` in `s` at or after `from`. */
  function IndexOf(s: string, sub: string, from: nat): (r: Option<nat>)
    ensures r.Some? ==> from <= r.value && OccursAt(s, sub, r.value)
    ensures r.Some? ==> forall j :: from <= j < r.value ==> !OccursAt(s, sub, j)
    ensures r.None? ==> forall j :: from <= j ==> !OccursAt(s, sub, j)
    decreases |s| - from
  {
    if from + |sub| > |s| then None
    else if s[from..from + |sub|] == sub then Some(from)
    else IndexOf(s, sub, from + 1)
  }

  /** Python's `sub in s`. */
  predicate Contains(s: string, sub: string) {
    IndexOf(s, sub, 0).Some?
  }

  lemma ContainsWitness(s: string, sub: string, i: int)
    requires OccursAt(s, sub, i)
    ensures Contains(s, sub)
  {
  }

  lemma NotContains(s: string, sub: string)
    requires forall j :: !OccursAt(s, sub, j)
    ensures !Contains(s, sub)
  {
  }

  // ---------------------------------------------------------------------------
  // `s.split(sep)` with an explicit, non-empty separator
  // ---------------------------------------------------------------------------

  /** Python's `s.split(sep)`: the pieces between the non-overlapping
      occurrences of `sep`, scanning from the left. */
  function Split(s: string, sep: string): (parts: seq<string>)
    requires sep != []
    ensures |parts| >= 1
    ensures |parts| > 1 <==> Contains(s, sep)
    decreases |s|
  {
    match IndexOf(s, sep, 0)
    case None => [s]
    case Some(i) => [s[..i]] + Split(s[i + |sep|..], sep)
  }

  /** Python's `sep.join(parts)`. */
  function Join(parts: seq<string>, sep: string): string
    requires |parts| >= 1
  {
    if |parts| == 1 then parts[0] else parts[0] + sep + Join(parts[1..], sep)
  }

  function Last<T>(s: seq<T>): T
    requires |s| >= 1
  {
    s[|s| - 1]
  }

  /** Joining the pieces back with the separator gives the original string. */
  lemma {:induction false} SplitJoin(s: string, sep: string)
    requires sep != []
    ensures Join(Split(s, sep), sep) == s
    decreases |s|
  {
    var parts := Split(s, sep);
    if IndexOf(s, sep, 0).None? {
      assert parts == [s];
    } else {
      var i := IndexOf(s, sep, 0).value;
      var rest := s[i + |sep|..];
      SplitJoin(rest, sep);
      assert parts == [s[..i]] + Split(rest, sep);
      assert |parts| > 1 && parts[0] == s[..i] && parts[1..] == Split(rest, sep);
      assert Join(parts, sep) == s[..i] + sep + Join(Split(rest, sep), sep);
      assert s[i..i + |sep|] == sep;
      assert s == s[..i] + sep + rest;
    }
  }

  /** No piece contains the separator. */
  lemma {:induction false} SplitPiecesAvoidSeparator(s: string, sep: string, k: int)
    requires sep != [] && 0 <= k < |Split(s, sep)|
    ensures !Contains(Split(s, sep)[k], sep)
    decreases |s|
  {
    var parts := Split(s, sep);
    var found := IndexOf(s, sep, 0);
    if found.None? {
      assert parts == [s];
    } else {
      var i := found.value;
      var rest := s[i + |sep|..];
      var tail := Split(rest, sep);
      assert parts == [s[..i]] + tail;
      if k == 0 {
        PrefixAvoidsSeparator(s, sep, i);
      } else {
        SplitPiecesAvoidSeparator(rest, sep, k - 1);
        assert parts[k] == tail[k - 1];
      }
    }
  }

  /** The text before the first occurrence does not contain the separator. */
  lemma PrefixAvoidsSeparator(s: string, sep: string, i: nat)
    requires sep != [] && IndexOf(s, sep, 0) == Some(i)
    ensures !Contains(s[..i], sep)
  {
    forall j | 0 <= j
      ensures !OccursAt(s[..i], sep, j)
    {
      if j + |sep| <= i {
        assert !OccursAt(s, sep, j);
        assert s[..i][j..j + |sep|] == s[j..j + |sep|];
      }
    }
    NotContains(s[..i], sep);
  }

  /** When the separator occurs, the last piece is exactly what follows its
      last occurrence (the string ends with `sep + last`). */
  lemma {:induction false} SplitLastPiece(s: string, sep: string)
    requires sep != [] && Contains(s, sep)
    ensures var last := Last(Split(s, sep));
            |last| + |sep| <= |s| && s[|s| - |last| - |sep|..] == sep + last
    decreases |s|
  {
    var i := IndexOf(s, sep, 0).value;
    var rest := s[i + |sep|..];
    var tail := Split(rest, sep);
    assert Split(s, sep) == [s[..i]] + tail;
    var last := Last(tail);
    assert Last(Split(s, sep)) == last;
    EndsWith(s, sep, i, last);
  }

  lemma {:induction false} EndsWith(s: string, sep: string, i: nat, last: string)
    requires sep != [] && OccursAt(s, sep, i)
    requires var rest := s[i + |sep|..];
             last == Last(Split(rest, sep))
    ensures |last| + |sep| <= |s| && s[|s| - |last| - |sep|..] == sep + last
    decreases |s|, 0
  {
    var rest := s[i + |sep|..];
    if Contains(rest, sep) {
      SplitLastPiece(rest, sep);
      assert s[|s| - |last| - |sep|..] == rest[|rest| - |last| - |sep|..];
    } else {
      assert Split(rest, sep) == [rest];
      assert s[i..i + |sep|] == sep;
      assert s[i..] == s[i..i + |sep|] + rest;
    }
  }

  // ---------------------------------------------------------------------------
  // `s.strip(chars)`
  // ---------------------------------------------------------------------------

  /** Python's `s.lstrip(chars)`, the characters to remove given by `p`. */
  function StripLeading(s: string, p: char -> bool): (r: string)
    ensures |r| <= |s| && r == s[|s| - |r|..]
    ensures forall k :: 0 <= k < |s| - |r| ==> p(s[k])
    ensures r != [] ==> !p(r[0])
    decreases |s|
  {
    if s != [] && p(s[0]) then StripLeading(s[1..], p) else s
  }

  /** Python's `s.rstrip(chars)`. */
  function StripTrailing(s: string, p: char -> bool): (r: string)
    ensures |r| <= |s| && r == s[..|r|]
    ensures forall k :: |r| <= k < |s| ==> p(s[k])
    ensures r != [] ==> !p(r[|r| - 1])
    decreases |s|
  {
    if s != [] && p(s[|s| - 1]) then StripTrailing(s[..|s| - 1], p) else s
  }

  /** Python's `s.strip(chars)`: what is left of `s` once every leading and
      every trailing character satisfying `p` is gone. */
  function Strip(s: string, p: char -> bool): (r: string)
    ensures r == [] || (!p(r[0]) && !p(r[|r| - 1]))
    ensures IsStripped(s, p, |s| - |StripLeading(s, p)|, r)
  {
    var m := StripLeading(s, p);
    var r := StripTrailing(m, p);
    StripInfix(s, p, m, r);
    r
  }

  /** `r` is the infix of `s` starting at `i`, and everything around it satisfies `p`. */
  ghost predicate IsStripped(s: string, p: char -> bool, i: int, r: string) {
    && 0 <= i <= |s| - |r|
    && s[i..i + |r|] == r
    && (forall k :: 0 <= k < i ==> p(s[k]))
    && (forall k :: i + |r| <= k < |s| ==> p(s[k]))
  }

  lemma StripInfix(s: string, p: char -> bool, m: string, r: string)
    requires |m| <= |s| && m == s[|s| - |m|..] && forall k :: 0 <= k < |s| - |m| ==> p(s[k])
    requires |r| <= |m| && r == m[..|r|] && forall k :: |r| <= k < |m| ==> p(m[k])
    ensures IsStripped(s, p, |s| - |m|, r)
  {
    var i := |s| - |m|;
    assert s[i..i + |r|] == r;
    forall k | i + |r| <= k < |s|
      ensures p(s[k])
    {
      assert s[k] == m[k - i];
    }
  }

  predicate IsQuote(c: char) {
    c == '"'
  }

  // ---------------------------------------------------------------------------
  // Runs of characters and `bytes.split()` (no separator)
  // ---------------------------------------------------------------------------

  /** The end of the maximal run of characters satisfying `p` that starts at `i`. */
  function RunEnd(s: string, i: nat, p: char -> bool): (j: nat)
    requires i <= |s|
    ensures i <= j <= |s|
    ensures forall k :: i <= k < j ==> p(s[k])
    ensures j == |s| || !p(s[j])
    decreases |s| - i
  {
    if i == |s| || !p(s[i]) then i else RunEnd(s, i + 1, p)
  }

  /** The run end is the only position that closes a run of `p` from `i`. */
  lemma {:induction false} RunEndUnique(s: string, i: nat, p: char -> bool, j: nat)
    requires i <= j <= |s|
    requires forall k :: i <= k < j ==> p(s[k])
    requires j == |s| || !p(s[j])
    ensures RunEnd(s, i, p) == j
    decreases j - i
  {
    if i < j {
      RunEndUnique(s, i + 1, p, j);
    }
  }

  predicate NoSpace(t: string) {
    forall k :: 0 <= k < |t| ==> !IsSpace(t[k])
  }

  /** Python's `bytes.split()`: the maximal runs of non-whitespace, in order. */
  function SplitWhitespace(s: string): (tokens: seq<string>)
    ensures forall k :: 0 <= k < |tokens| ==> tokens[k] != [] && NoSpace(tokens[k])
    decreases |s|
  {
    if s == [] then []
    else if IsSpace(s[0]) then SplitWhitespace(s[1..])
    else
      var n := RunEnd(s, 0, NotSpace);
      [s[..n]] + SplitWhitespace(s[n..])
  }

  /** `b" ".join(tokens)`. */
  function Unwords(tokens: seq<string>): string {
    if tokens == [] then []
    else if |tokens| == 1 then tokens[0]
    else tokens[0] + " " + Unwords(tokens[1..])
  }

  /** Splitting a space-joined list of non-empty, space-free tokens gives the list back. */
  lemma {:induction false} SplitWhitespaceUnwords(tokens: seq<string>)
    requires forall k :: 0 <= k < |tokens| ==> tokens[k] != [] && NoSpace(tokens[k])
    ensures SplitWhitespace(Unwords(tokens)) == tokens
    decreases |tokens|
  {
    if tokens == [] {
    } else {
      var t := tokens[0];
      var s := Unwords(tokens);
      var n := RunEnd(s, 0, NotSpace);
      if |tokens| == 1 {
        assert s == t;
        assert n == |t|;
        assert s[n..] == [];
        assert s[..n] == t;
      } else {
        var u := Unwords(tokens[1..]);
        assert s == t + " " + u;
        assert s[|t|] == ' ';
        assert forall k :: 0 <= k < |t| ==> s[k] == t[k];
        assert n == |t|;
        assert s[..n] == t;
        assert s[n..] == " " + u;
        assert (" " + u)[1..] == u;
        SplitWhitespaceUnwords(tokens[1..]);
      }
    }
  }

  /** The characters of `s` that are not whitespace, in order. */
  function NonSpaceChars(s: string): string
    decreases |s|
  {
    if s == [] then [] else (if IsSpace(s[0]) then [] else [s[0]]) + NonSpaceChars(s[1..])
  }

  function Concat(tokens: seq<string>): string {
    if tokens == [] then [] else tokens[0] + Concat(tokens[1..])
  }

  lemma {:induction false} NonSpaceCharsSplit(s: string, n: nat)
    requires n <= |s| && NoSpace(s[..n])
    ensures NonSpaceChars(s) == s[..n] + NonSpaceChars(s[n..])
    decreases n
  {
    if n > 0 {
      assert s[1..][..n - 1] == s[1..n];
      assert forall k :: 0 <= k < n - 1 ==> s[1..n][k] == s[..n][k + 1];
      NonSpaceCharsSplit(s[1..], n - 1);
      assert s[1..][n - 1..] == s[n..];
      assert !IsSpace(s[..n][0]);
      assert s[..n] == [s[0]] + s[1..][..n - 1];
    }
  }

  /** Splitting loses no character other than whitespace. */
  lemma {:induction false} SplitWhitespaceKeepsText(s: string)
    ensures Concat(SplitWhitespace(s)) == NonSpaceChars(s)
    decreases |s|
  {
    if s == [] {
    } else if IsSpace(s[0]) {
      SplitWhitespaceKeepsText(s[1..]);
    } else {
      var n := RunEnd(s, 0, NotSpace);
      assert NoSpace(s[..n]);
      NonSpaceCharsSplit(s, n);
      SplitWhitespaceKeepsText(s[n..]);
      var tokens := SplitWhitespace(s);
      assert tokens == [s[..n]] + SplitWhitespace(s[n..]);
      assert tokens[1..] == SplitWhitespace(s[n..]);
    }
  }

  // ---------------------------------------------------------------------------
  // `s[:n]`
  // ---------------------------------------------------------------------------

  /** Python's slice `s[:n]`: a negative `n` counts from the end. */
  function SliceTo<T>(s: seq<T>, n: int): (r: seq<T>)
    ensures |r| <= |s| && r == s[..|r|]
    ensures 0 <= n ==> |r| == if n < |s| then n else |s|
    ensures n < 0 ==> |r| == if |s| + n < 0 then 0 else |s| + n
  {
    if n >= |s| then s
    else if n >= 0 then s[..n]
    else if |s| + n >= 0 then s[..|s| + n]
    else []
  }

  // ---------------------------------------------------------------------------
  // `int(text)` on decimal strings
  // ---------------------------------------------------------------------------

  predicate AllDigits(d: string) {
    forall k :: 0 <= k < |d| ==> IsDigit(d[k])
  }

  function DigitValue(c: char): nat
    requires IsDigit(c)
  {
    c as int - '0' as int
  }

  function DigitsValue(d: string): nat
    requires AllDigits(d)
  {
    if d == [] then 0 else DigitsValue(d[..|d| - 1]) * 10 + DigitValue(d[|d| - 1])
  }

  /** Python's `int(text)`: surrounding whitespace, an optional sign, then at
      least one decimal digit; anything else is `ValueError`, here `None`.
      Blank text fails, and a plain run of digits reads as its decimal value. */
  function ParseInt(text: string): (r: Option<int>)
    ensures Strip(text, IsSpace) == [] ==> r.None?
    ensures text != [] && AllDigits(text) ==> r == Some(DigitsValue(text))
  {
    StripDigits(text);
    ParseStripped(Strip(text, IsSpace))
  }

  /** `int()` once the whitespace is stripped: an optional sign, then at least
      one decimal digit. */
  function ParseStripped(t: string): Option<int> {
    if t == [] then None
    else
      var signed := t[0] == '+' || t[0] == '-';
      var digits := if signed then t[1..] else t;
      if digits == [] || !AllDigits(digits) then None
      else
        var v: int := DigitsValue(digits);
        Some(if t[0] == '-' then -v else v)
  }

  /** Digits are not whitespace, so stripping leaves a run of digits alone. */
  lemma StripDigits(text: string)
    ensures text != [] && AllDigits(text) ==> Strip(text, IsSpace) == text
  {
    if text != [] && AllDigits(text) {
      var r := Strip(text, IsSpace);
      var i := |text| - |StripLeading(text, IsSpace)|;
      assert IsStripped(text, IsSpace, i, r);
      assert !IsSpace(text[0]) && !IsSpace(text[|text| - 1]);
      assert i == 0 && i + |r| == |text|;
      assert r == text[0..|text|] == text;
    }
  }

  function DigitChar(n: nat): (c: char)
    requires n < 10
    ensures IsDigit(c) && DigitValue(c) == n
  {
    ('0' as int + n) as char
  }

  /** `str(n)` for a natural number. */
  function Decimal(n: nat): (d: string)
    ensures d != [] && AllDigits(d)
  {
    if n < 10 then [DigitChar(n)] else Decimal(n / 10) + [DigitChar(n % 10)]
  }

  /** Exactly one leading character satisfies `p`. */
  lemma StripLeadingOne(s: string, p: char -> bool)
    requires |s| >= 2 && p(s[0]) && !p(s[1])
    ensures StripLeading(s, p) == s[1..]
  {
    assert s[1..][0] == s[1];
  }

  /** Exactly one trailing character satisfies `p`. */
  lemma StripTrailingOne(s: string, p: char -> bool)
    requires |s| >= 2 && p(s[|s| - 1]) && !p(s[|s| - 2])
    ensures StripTrailing(s, p) == s[..|s| - 1]
  {
    assert s[..|s| - 1][|s| - 2] == s[|s| - 2];
  }

  /** Cutting a sequence with a head keeps the head and cuts the rest one shorter. */
  lemma SliceToCons<T>(x: T, r: seq<T>, n: int)
    requires n >= 1
    ensures SliceTo([x] + r, n) == [x] + SliceTo(r, n - 1)
  {
    if n - 1 < |r| {
      assert ([x] + r)[..n] == [x] + r[..n - 1];
    }
  }

  /** Stripping removes exactly the padding around `s[a..b]` when that
      infix starts and ends with characters to keep. */
  lemma StripBetween(s: string, a: nat, b: nat, p: char -> bool)
    requires a < b <= |s|
    requires forall k :: 0 <= k < a ==> p(s[k])
    requires forall k :: b <= k < |s| ==> p(s[k])
    requires !p(s[a]) && !p(s[b - 1])
    ensures Strip(s, p) == s[a..b]
  {
    StripLeadingAt(s, a, p);
    StrippedUnique(s, p, a, b, Strip(s, p));
  }

  /** Only one infix starting at `a` has padding around it and its own last character kept. */
  lemma StrippedUnique(s: string, p: char -> bool, a: nat, b: nat, r: string)
    requires a < b <= |s| && !p(s[b - 1])
    requires forall k :: b <= k < |s| ==> p(s[k])
    requires IsStripped(s, p, a, r)
    requires r == [] || !p(r[|r| - 1])
    ensures r == s[a..b]
  {
    assert |r| == b - a;
  }

  /** `lstrip` stops at the first character to keep. */
  lemma StripLeadingAt(s: string, a: nat, p: char -> bool)
    requires a < |s| && !p(s[a])
    requires forall k :: 0 <= k < a ==> p(s[k])
    ensures StripLeading(s, p) == s[a..]
  {
    var m := StripLeading(s, p);
    var c := |s| - |m|;
    assert c <= a;
    assert m[0] == s[c] && !p(m[0]);
    assert c == a;
  }

  /** `int()` of a run of digits, signed or not, with whitespace around it,
      is the value of the digits, negated after a minus sign. */
  lemma ParseIntSigned(pre: string, sign: string, digits: string, post: string)
    requires forall k :: 0 <= k < |pre| ==> IsSpace(pre[k])
    requires forall k :: 0 <= k < |post| ==> IsSpace(post[k])
    requires sign == "" || sign == "+" || sign == "-"
    requires digits != [] && AllDigits(digits)
    ensures ParseInt(pre + sign + digits + post)
            == Some(if sign == "-" then -(DigitsValue(digits) as int) else DigitsValue(digits) as int)
  {
    var core := sign + digits;
    assert pre + sign + digits + post == pre + core + post;
    assert IsDigit(core[0]) || core[0] == '+' || core[0] == '-';
    assert core[|core| - 1] == digits[|digits| - 1];
    StripPadded(pre, core, post, IsSpace);
    ParseSignedDigits(sign, digits);
  }

  /** Stripping `pre + core + post`, with all of `pre` and `post` to drop and
      both ends of `core` to keep, leaves `core`. */
  lemma StripPadded(pre: string, core: string, post: string, p: char -> bool)
    requires forall k :: 0 <= k < |pre| ==> p(pre[k])
    requires forall k :: 0 <= k < |post| ==> p(post[k])
    requires core != [] && !p(core[0]) && !p(core[|core| - 1])
    ensures Strip(pre + core + post, p) == core
  {
    var text := pre + core + post;
    var a, b := |pre|, |pre| + |core|;
    assert text[a..b] == core;
    assert text[a] == core[0] && text[b - 1] == core[|core| - 1];
    assert forall k :: 0 <= k < a ==> text[k] == pre[k];
    assert forall k :: b <= k < |text| ==> text[k] == post[k - b];
    StripBetween(text, a, b, p);
  }

  /** An optional sign before a run of digits reads as the signed value. */
  lemma ParseSignedDigits(sign: string, digits: string)
    requires sign == "" || sign == "+" || sign == "-"
    requires digits != [] && AllDigits(digits)
    ensures ParseStripped(sign + digits)
            == Some(if sign == "-" then -(DigitsValue(digits) as int) else DigitsValue(digits) as int)
  {
    var core := sign + digits;
    if sign == "" {
      assert core == digits && IsDigit(core[0]);
    } else {
      assert core[0] == sign[0] && core[1..] == digits;
    }
  }

  /** `int(str(n)) == n`. */
  lemma {:induction false} ParseIntDecimal(n: nat)
    ensures ParseInt(Decimal(n)) == Some(n)
  {
    DecimalValue(n);
  }

  lemma {:induction false} DecimalValue(n: nat)
    ensures DigitsValue(Decimal(n)) == n
  {
    if n >= 10 {
      DecimalValue(n / 10);
      var d := Decimal(n);
      assert d[..|d| - 1] == Decimal(n / 10);
    }
  }
}
