/** The few JavaScript string operations the spreadsheet service relies on
    (`toLowerCase`, `trim`, `includes`, `split`, `replace`, `Number` on digit
    strings), stated on `seq<char>`.  Recursion runs over an index rather than
    over a slice, so that Dafny can evaluate these functions on literal text. */
module JsText {

  /** JavaScript's WhiteSpace and LineTerminator code points: what `trim`
      removes and what the regular-expression class `\s` matches. */
  predicate IsJsWhitespace(c: char) {
    || c == '\t' || c == '\n' || c == '\U{B}' || c == '\U{C}' || c == '\r' || c == ' '
    || c == '\U{A0}' || c == '\U{1680}' || ('\U{2000}' <= c <= '\U{200A}')
    || c == '\U{2028}' || c == '\U{2029}' || c == '\U{202F}' || c == '\U{205F}'
    || c == '\U{3000}' || c == '\U{FEFF}'
  }

  predicate IsUpper(c: char) {
    ('A' <= c <= 'Z') || ('\U{C0}' <= c <= '\U{DE}' && c != '\U{D7}')
  }

  /** `toLowerCase` on one code point of the Basic Latin and Latin-1 blocks. */
  function ToLowerChar(c: char): (r: char)
    ensures IsUpper(c) ==> r as int == c as int + 32
    ensures !IsUpper(c) ==> r == c
    ensures IsJsWhitespace(r) <==> IsJsWhitespace(c)
    ensures !IsUpper(r)
  {
    if IsUpper(c) then (c as int + 32) as char else c
  }

  function LowerFrom(s: string, i: nat): (r: string)
    requires i <= |s|
    ensures |r| == |s| - i
    decreases |s| - i
  {
    if i == |s| then [] else [ToLowerChar(s[i])] + LowerFrom(s, i + 1)
  }

  /** `String.prototype.toLowerCase`. */
  function ToLower(s: string): (r: string)
    ensures |r| == |s|
  {
    LowerFrom(s, 0)
  }

  lemma {:induction false} LowerFromAt(s: string, i: nat)
    requires i <= |s|
    ensures forall k :: 0 <= k < |s| - i ==> LowerFrom(s, i)[k] == ToLowerChar(s[i + k])
    decreases |s| - i
  {
    if i < |s| {
      LowerFromAt(s, i + 1);
    }
  }

  /** `toLowerCase` maps each code point on its own. */
  lemma ToLowerAt(s: string)
    ensures forall k :: 0 <= k < |s| ==> ToLower(s)[k] == ToLowerChar(s[k])
  {
    LowerFromAt(s, 0);
  }

  /** Index of the first code point at or after `i` that is not whitespace. */
  function SkipWhitespace(s: string, i: nat): (r: nat)
    requires i <= |s|
    ensures i <= r <= |s|
    ensures forall k :: i <= k < r ==> IsJsWhitespace(s[k])
    ensures r < |s| ==> !IsJsWhitespace(s[r])
    decreases |s| - i
  {
    if i == |s| || !IsJsWhitespace(s[i]) then i else SkipWhitespace(s, i + 1)
  }

  /** End of the text once trailing whitespace before position `j` is dropped. */
  function DropTrailing(s: string, j: nat): (r: nat)
    requires j <= |s|
    ensures r <= j
    ensures forall k :: r <= k < j ==> IsJsWhitespace(s[k])
    ensures r > 0 ==> !IsJsWhitespace(s[r - 1])
  {
    if j == 0 || !IsJsWhitespace(s[j - 1]) then j else DropTrailing(s, j - 1)
  }

  /** `String.prototype.trim`: the text between the leading and the trailing whitespace. */
  function Trim(s: string): (r: string)
    ensures |r| <= |s|
    ensures r == [] || (!IsJsWhitespace(r[0]) && !IsJsWhitespace(r[|r| - 1]))
    ensures r == [] <==> forall k :: 0 <= k < |s| ==> IsJsWhitespace(s[k])
    ensures SkipWhitespace(s, 0) + |r| <= |s| && r == s[SkipWhitespace(s, 0)..SkipWhitespace(s, 0) + |r|]
    ensures forall k :: 0 <= k < SkipWhitespace(s, 0) ==> IsJsWhitespace(s[k])
    ensures forall k :: SkipWhitespace(s, 0) + |r| <= k < |s| ==> IsJsWhitespace(s[k])
  {
    var a := SkipWhitespace(s, 0);
    var b := DropTrailing(s, |s|);
    if a <= b then s[a..b] else []
  }

  /** `sub` occurs in `s` starting at position `i`. */
  predicate OccursAt(s: string, sub: string, i: int) {
    0 <= i && i + |sub| <= |s| && s[i..i + |sub|] == sub
  }

  /** `sub[j..]` occurs in `s` at position `i + j`. */
  function MatchesAt(s: string, sub: string, i: nat, j: nat): bool
    requires i + |sub| <= |s| && j <= |sub|
    decreases |sub| - j
  {
    j == |sub| || (s[i + j] == sub[j] && MatchesAt(s, sub, i, j + 1))
  }

  lemma {:induction false} MatchesAtMeans(s: string, sub: string, i: nat, j: nat)
    requires i + |sub| <= |s| && j <= |sub|
    ensures MatchesAt(s, sub, i, j) <==> s[i + j..i + |sub|] == sub[j..]
    decreases |sub| - j
  {
    if j < |sub| {
      MatchesAtMeans(s, sub, i, j + 1);
      assert s[i + j..i + |sub|] == [s[i + j]] + s[i + j + 1..i + |sub|];
      assert sub[j..] == [sub[j]] + sub[j + 1..];
    }
  }

  function IncludesFrom(s: string, sub: string, i: nat): bool
    decreases |s| - i
  {
    i + |sub| <= |s| && (MatchesAt(s, sub, i, 0) || IncludesFrom(s, sub, i + 1))
  }

  lemma {:induction false} IncludesFromMeans(s: string, sub: string, i: nat)
    ensures IncludesFrom(s, sub, i) <==> exists k :: i <= k && OccursAt(s, sub, k)
    decreases |s| - i
  {
    if i + |sub| <= |s| {
      MatchesAtMeans(s, sub, i, 0);
      assert sub[0..] == sub;
      assert MatchesAt(s, sub, i, 0) <==> OccursAt(s, sub, i);
      IncludesFromMeans(s, sub, i + 1);
      if exists k :: i <= k && OccursAt(s, sub, k) {
        var k :| i <= k && OccursAt(s, sub, k);
        if k > i {
          assert exists k' :: i + 1 <= k' && OccursAt(s, sub, k');
        }
      }
      if IncludesFrom(s, sub, i + 1) {
        var k :| i + 1 <= k && OccursAt(s, sub, k);
        assert i <= k;
      }
    }
  }

  /** `String.prototype.includes`. */
  function Includes(s: string, sub: string): bool {
    IncludesFrom(s, sub, 0)
  }

  /** `includes` holds exactly when `sub` occurs somewhere in `s`. */
  lemma IncludesMeans(s: string, sub: string)
    ensures Includes(s, sub) <==> exists k :: OccursAt(s, sub, k)
  {
    IncludesFromMeans(s, sub, 0);
    if exists k :: OccursAt(s, sub, k) {
      var k :| OccursAt(s, sub, k);
      assert 0 <= k;
    }
  }

  /** Every text includes itself (used for "an exact header match is also a substring match"). */
  lemma IncludesSelf(s: string)
    ensures Includes(s, s)
  {
    IncludesMeans(s, s);
    assert OccursAt(s, s, 0);
  }

  /** The code points of `s` that `drop` does not select, in order
      (`s.replace(/[…]/g, '')`). */
  function RemoveWhere(s: string, drop: char -> bool): (r: string)
    ensures |r| <= |s|
    ensures forall k :: 0 <= k < |r| ==> !drop(r[k])
    ensures forall c :: c in r <==> c in s && !drop(c)
  {
    if s == [] then []
    else
      var rest := RemoveWhere(s[1..], drop);
      if drop(s[0]) then rest else [s[0]] + rest
  }

  /** Position of the first `c` at or after `i`, or `|s|` when there is none (`indexOf`). */
  /** Removing characters distributes over concatenation. */
  lemma {:induction false} RemoveWhereConcat(a: string, b: string, drop: char -> bool)
    ensures RemoveWhere(a + b, drop) == RemoveWhere(a, drop) + RemoveWhere(b, drop)
    decreases |a|
  {
    if a != [] {
      assert (a + b)[1..] == a[1..] + b;
      RemoveWhereConcat(a[1..], b, drop);
    } else {
      assert a + b == b;
    }
  }

  /** A single character is kept exactly when `drop` rejects it. */
  lemma RemoveWhereOne(c: char, drop: char -> bool)
    ensures RemoveWhere([c], drop) == if drop(c) then [] else [c]
  {
    assert [c][1..] == [];
  }

  /** Appending one character to the text appends it to the result exactly when it is kept. */
  lemma RemoveWhereSnoc(s: string, c: char, drop: char -> bool)
    ensures RemoveWhere(s + [c], drop) == RemoveWhere(s, drop) + (if drop(c) then [] else [c])
  {
    RemoveWhereConcat(s, [c], drop);
    RemoveWhereOne(c, drop);
  }

  function IndexOfFrom(s: string, c: char, i: nat): (r: nat)
    requires i <= |s|
    ensures i <= r <= |s|
    ensures forall k :: i <= k < r ==> s[k] != c
    ensures r < |s| ==> s[r] == c
    decreases |s| - i
  {
    if i == |s| || s[i] == c then i else IndexOfFrom(s, c, i + 1)
  }

  /** `s.replace(from, to)` with a one-character pattern: only the first occurrence changes. */
  function ReplaceFirst(s: string, from: char, to: char): (r: string)
    ensures |r| == |s|
    ensures from !in s ==> r == s
  {
    var i := IndexOfFrom(s, from, 0);
    if i == |s| then s
    else s[..i] + [to] + s[i + 1..]
  }

  /** `replace` changes exactly the first occurrence of the pattern. */
  lemma ReplaceFirstAt(s: string, from: char, to: char, i: nat)
    requires i < |s| && s[i] == from && from !in s[..i]
    ensures ReplaceFirst(s, from, to) == s[..i] + [to] + s[i + 1..]
  {
    assert forall k :: 0 <= k < i ==> s[..i][k] == s[k];
  }

  /** `s.split(sep)` with a one-character separator. */
  function Split(s: string, sep: char): (parts: seq<string>)
    ensures |parts| >= 1
    ensures forall p :: p in parts ==> sep !in p
    ensures Join(parts, sep) == s
  {
    if s == [] then [[]]
    else
      var rest := Split(s[1..], sep);
      if s[0] == sep then [[]] + rest
      else [[s[0]] + rest[0]] + rest[1..]
  }

  /** `parts.join(sep)`, the inverse of Split. */
  function Join(parts: seq<string>, sep: char): string
    requires |parts| >= 1
  {
    if |parts| == 1 then parts[0] else parts[0] + [sep] + Join(parts[1..], sep)
  }

  /** Splitting a joined list of separator-free parts gives the parts back. */
  lemma {:induction false} SplitJoin(parts: seq<string>, sep: char)
    requires |parts| >= 1
    requires forall p :: p in parts ==> sep !in p
    ensures Split(Join(parts, sep), sep) == parts
  {
    if |parts| == 1 {
      SplitPart(parts[0], [], sep);
      assert parts[0] + [] == parts[0];
    } else {
      var tail := [sep] + Join(parts[1..], sep);
      SplitJoin(parts[1..], sep);
      SplitPart(parts[0], tail, sep);
      assert tail[1..] == Join(parts[1..], sep);
      assert Join(parts, sep) == parts[0] + tail;
      assert [parts[0]] + parts[1..] == parts;
    }
  }

  /** Splitting a separator-free prefix followed by the rest. */
  lemma {:induction false} SplitPart(p: string, tail: string, sep: char)
    requires sep !in p
    ensures tail == [] ==> Split(p + tail, sep) == [p]
    ensures tail != [] && tail[0] == sep ==> Split(p + tail, sep) == [p] + Split(tail[1..], sep)
  {
    if p == [] {
      assert p + tail == tail;
      if tail != [] && tail[0] == sep {
        assert Split(tail, sep) == [[]] + Split(tail[1..], sep);
      }
    } else {
      SplitPart(p[1..], tail, sep);
      assert (p + tail)[1..] == p[1..] + tail;
      assert [p[0]] + p[1..] == p;
    }
  }

  /** ASCII decimal digits, the class `\d` of JavaScript regular expressions. */
  predicate IsDigit(c: char) {
    '0' <= c <= '9'
  }

  predicate AllDigits(s: string) {
    forall k :: 0 <= k < |s| ==> IsDigit(s[k])
  }

  function DigitValue(c: char): (d: nat)
    requires IsDigit(c)
    ensures d < 10
  {
    c as int - '0' as int
  }

  /** Value of the first `n` digits of `s`. */
  function ValueOfFirst(s: string, n: nat): nat
    requires n <= |s| && AllDigits(s)
  {
    if n == 0 then 0 else 10 * ValueOfFirst(s, n - 1) + DigitValue(s[n - 1])
  }

  /** `Number(s)` for a string of ASCII digits (the empty string gives 0). */
  function DigitsValue(s: string): nat
    requires AllDigits(s)
  {
    ValueOfFirst(s, |s|)
  }

  function Pow10(n: nat): (p: nat)
    ensures p >= 1
  {
    if n == 0 then 1 else 10 * Pow10(n - 1)
  }

  /** The value of a digit string is below 10 to the power of its length. */
  lemma {:induction false} ValueBelowPow10(s: string, n: nat)
    requires n <= |s| && AllDigits(s)
    ensures ValueOfFirst(s, n) < Pow10(n)
  {
    if n > 0 {
      ValueBelowPow10(s, n - 1);
    }
  }

  function DigitChar(d: nat): (c: char)
    requires d < 10
    ensures IsDigit(c) && DigitValue(c) == d
  {
    ('0' as int + d) as char
  }

  /** Decimal text of a natural number, without leading zeros (`String(n)`). */
  function NatToDecimal(n: nat): (s: string)
    ensures |s| >= 1 && AllDigits(s)
    ensures DigitsValue(s) == n
    ensures |s| > 1 ==> s[0] != '0'
  {
    if n < 10 then
      var s := [DigitChar(n)];
      assert ValueOfFirst(s, 1) == n;
      s
    else
      var prefix := NatToDecimal(n / 10);
      var s := prefix + [DigitChar(n % 10)];
      ValuePrefix(s, prefix);
      s
  }

  /** The value of a digit string extended by one digit. */
  lemma ValuePrefix(s: string, prefix: string)
    requires |s| == |prefix| + 1 && s[..|prefix|] == prefix && AllDigits(s)
    ensures AllDigits(prefix)
    ensures DigitsValue(s) == 10 * DigitsValue(prefix) + DigitValue(s[|prefix|])
  {
    assert forall k :: 0 <= k < |prefix| ==> prefix[k] == s[k];
    ValueOfFirstAgrees(s, prefix, |prefix|);
  }

  /** Two digit strings with the same first `n` code points have the same value there. */
  lemma {:induction false} ValueOfFirstAgrees(s: string, t: string, n: nat)
    requires n <= |s| && n <= |t| && AllDigits(s) && AllDigits(t)
    requires forall k :: 0 <= k < n ==> s[k] == t[k]
    ensures ValueOfFirst(s, n) == ValueOfFirst(t, n)
  {
    if n > 0 {
      ValueOfFirstAgrees(s, t, n - 1);
    }
  }

  /** Two-digit zero-padded decimal text, as the pt-BR date format writes days and months. */
  function Pad2(n: nat): (s: string)
    requires n < 100
    ensures |s| == 2 && AllDigits(s) && DigitsValue(s) == n
  {
    var s := [DigitChar(n / 10), DigitChar(n % 10)];
    assert ValueOfFirst(s, 1) == n / 10;
    s
  }
}
