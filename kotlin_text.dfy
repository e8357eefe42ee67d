/**
 * The parts of Kotlin's string library that the app's parsing code relies on:
 * `isWhitespace`/`trim`/`isBlank`, ASCII case mapping, `contains(…, ignoreCase)`,
 * `split(".")`, `toIntOrNull`, `"%d"` formatting, `takeLast`, `replace`,
 * `substringAfterLast`.
 */
module KotlinText {
  import opened Wrappers
  import Int32

  /* ----------------------------- whitespace and trim ----------------------------- */

  /** `Char.isWhitespace()` on the JVM (Character.isWhitespace || Character.isSpaceChar). */
  predicate IsWhitespace(c: char) {
    c == ' ' || '\t' <= c <= '\r' || '\U{1C}' <= c <= '\U{1F}'
    || c == '\U{A0}' || c == '\U{1680}' || '\U{2000}' <= c <= '\U{200A}'
    || c == '\U{2028}' || c == '\U{2029}' || c == '\U{202F}' || c == '\U{205F}' || c == '\U{3000}'
  }

  /** `\s` of java.util.regex: space, `\t`, `\n`, `\u000B`, `\f`, `\r`. */
  predicate IsRegexSpace(c: char) {
    c == ' ' || '\t' <= c <= '\r'
  }

  /** `CharSequence.isBlank()`: empty or whitespace only. */
  predicate IsBlank(s: string) {
    forall i :: 0 <= i < |s| ==> IsWhitespace(s[i])
  }

  /** The end of the whitespace run of `s` that starts at `i`. */
  function SkipLeading(s: string, i: nat): (a: nat)
    requires i <= |s|
    ensures i <= a <= |s|
    ensures forall k :: i <= k < a ==> IsWhitespace(s[k])
    ensures a < |s| ==> !IsWhitespace(s[a])
    decreases |s| - i
  {
    if i < |s| && IsWhitespace(s[i]) then SkipLeading(s, i + 1) else i
  }

  /** The start of the whitespace run of `s` that ends at `j`, going no lower than `lo`. */
  function SkipTrailing(s: string, lo: nat, j: nat): (b: nat)
    requires lo <= j <= |s|
    ensures lo <= b <= j
    ensures forall k :: b <= k < j ==> IsWhitespace(s[k])
    ensures b > lo ==> !IsWhitespace(s[b - 1])
  {
    if j > lo && IsWhitespace(s[j - 1]) then SkipTrailing(s, lo, j - 1) else j
  }

  /** `String.trim()`: the slice of `s` left after removing leading and trailing whitespace. */
  function Trim(s: string): (r: string)
    ensures r == [] || (!IsWhitespace(r[0]) && !IsWhitespace(r[|r| - 1]))
    ensures r == [] <==> IsBlank(s)
    ensures exists a, b :: 0 <= a <= b <= |s| && r == s[a..b] && IsBlank(s[..a]) && IsBlank(s[b..])
  {
    var a := SkipLeading(s, 0);
    var b := SkipTrailing(s, a, |s|);
    var r := s[a..b];
    var head := s[..a];
    assert IsBlank(head) by {
      forall i | 0 <= i < |head|
        ensures IsWhitespace(head[i])
      {
        assert head[i] == s[i];
      }
    }
    var tail := s[b..];
    assert IsBlank(tail) by {
      forall j | 0 <= j < |tail|
        ensures IsWhitespace(tail[j])
      {
        assert tail[j] == s[b + j];
      }
    }
    if a == b then
      assert a == |s|;
      r
    else
      assert r[0] == s[a] && r[|r| - 1] == s[b - 1];
      r
  }

  /** A string that starts and ends with a non-whitespace character is its own trim. */
  lemma TrimOfTrimmed(s: string)
    requires s == [] || (!IsWhitespace(s[0]) && !IsWhitespace(s[|s| - 1]))
    ensures Trim(s) == s
  {
  }

  lemma TrimIdempotent(s: string)
    ensures Trim(Trim(s)) == Trim(s)
  {
    TrimOfTrimmed(Trim(s));
  }

  /* ----------------------------- case mapping (ASCII) ----------------------------- */

  function LowerChar(c: char): char {
    if 'A' <= c <= 'Z' then (c as int + 32) as char else c
  }

  function UpperChar(c: char): char {
    if 'a' <= c <= 'z' then (c as int - 32) as char else c
  }

  /** `lowercase(Locale.US)` on ASCII letters. */
  function Lower(s: string): (r: string)
    ensures |r| == |s| && forall i :: 0 <= i < |s| ==> r[i] == LowerChar(s[i])
  {
    seq(|s|, i requires 0 <= i < |s| => LowerChar(s[i]))
  }

  /** `uppercase(Locale.US)` on ASCII letters. */
  function Upper(s: string): (r: string)
    ensures |r| == |s| && forall i :: 0 <= i < |s| ==> r[i] == UpperChar(s[i])
  {
    seq(|s|, i requires 0 <= i < |s| => UpperChar(s[i]))
  }

  /* ----------------------------- searching ----------------------------- */

  /** `s.startsWith(p, offset)` */
  predicate StartsWithAt(s: string, p: string, offset: nat) {
    offset + |p| <= |s| && s[offset..offset + |p|] == p
  }

  /** `s.contains(sub)` */
  predicate Contains(s: string, sub: string) {
    exists i :: 0 <= i <= |s| - |sub| && StartsWithAt(s, sub, i)
  }

  /** `s.contains(sub, ignoreCase = true)` for ASCII text. */
  predicate ContainsIgnoreCase(s: string, sub: string) {
    Contains(Lower(s), Lower(sub))
  }

  /** If `s` contains `sub`, it contains every string `sub` contains. */
  lemma ContainsTransitive(s: string, sub: string, inner: string)
    requires Contains(s, sub) && Contains(sub, inner)
    ensures Contains(s, inner)
  {
    var i :| 0 <= i <= |s| - |sub| && StartsWithAt(s, sub, i);
    var j :| 0 <= j <= |sub| - |inner| && StartsWithAt(sub, inner, j);
    forall k | 0 <= k < |inner| ensures s[i + j + k] == inner[k] {
      assert s[i + j + k] == s[i..i + |sub|][j + k];
      assert sub[j + k] == sub[j..j + |inner|][k];
    }
    assert StartsWithAt(s, inner, i + j);
  }

  /** Index of the last `c` in `s`, if any. */
  function LastIndexOf(s: string, c: char): (r: Option<nat>)
    ensures r.None? <==> c !in s
    ensures r.Some? ==> r.value < |s| && s[r.value] == c && c !in s[r.value + 1..]
  {
    if s == [] then None
    else if s[|s| - 1] == c then Some(|s| - 1)
    else LastIndexOf(s[..|s| - 1], c)
  }

  /** `s.substringAfterLast(c, missing)` */
  function SubstringAfterLast(s: string, c: char, missing: string): (r: string)
    ensures c !in s ==> r == missing
    ensures c in s ==> c !in r && exists k :: 0 <= k < |s| && s[k] == c && r == s[k + 1..]
  {
    match LastIndexOf(s, c)
    case None => missing
    case Some(k) => s[k + 1..]
  }

  /** `s.takeLast(n)` */
  function TakeLast(s: string, n: nat): (r: string)
    ensures |r| == if n < |s| then n else |s|
    ensures r == s[|s| - |r|..]
  {
    if n < |s| then s[|s| - n..] else s
  }

  /** `s.replace(c.toString(), "")` */
  function RemoveChar(s: string, c: char): (r: string)
    ensures c !in r && |r| <= |s|
    ensures forall x :: x in r <==> x in s && x != c
  {
    if s == [] then []
    else (if s[0] == c then [] else [s[0]]) + RemoveChar(s[1..], c)
  }

  /** Removal keeps the order of the other characters: it distributes over concatenation. */
  lemma {:induction false} RemoveCharAppend(a: string, b: string, c: char)
    ensures RemoveChar(a + b, c) == RemoveChar(a, c) + RemoveChar(b, c)
    decreases |a|
  {
    if a == [] {
      assert a + b == b;
    } else {
      var head := if a[0] == c then [] else [a[0]];
      assert (a + b)[0] == a[0];
      assert (a + b)[1..] == a[1..] + b;
      assert RemoveChar(a + b, c) == head + RemoveChar(a[1..] + b, c);
      assert RemoveChar(a, c) == head + RemoveChar(a[1..], c);
      RemoveCharAppend(a[1..], b, c);
      assert head + (RemoveChar(a[1..], c) + RemoveChar(b, c)) == (head + RemoveChar(a[1..], c)) + RemoveChar(b, c);
    }
  }

  /* ----------------------------- split ----------------------------- */

  /**
   * `s.split(c.toString())`: the pieces between occurrences of `c`, empty pieces
   * included; there is always one more piece than occurrences.
   */
  function Split(s: string, c: char): (r: seq<string>)
    ensures |r| >= 1
    ensures forall k :: 0 <= k < |r| ==> c !in r[k]
  {
    if s == [] then [""]
    else if s[0] == c then [""] + Split(s[1..], c)
    else
      var rest := Split(s[1..], c);
      [[s[0]] + rest[0]] + rest[1..]
  }

  lemma {:induction false} SplitWithoutSeparator(a: string, c: char)
    requires c !in a
    ensures Split(a, c) == [a]
  {
    if a != [] {
      SplitWithoutSeparator(a[1..], c);
      assert [a[0]] + a[1..] == a;
    }
  }

  lemma {:induction false} SplitJoin(a: string, c: char, b: string)
    requires c !in a
    ensures Split(a + [c] + b, c) == [a] + Split(b, c)
  {
    if a == [] {
      assert a + [c] + b == [c] + b;
      assert ([c] + b)[1..] == b;
    } else {
      SplitJoin(a[1..], c, b);
      assert (a + [c] + b)[1..] == a[1..] + [c] + b;
      assert [a[0]] + a[1..] == a;
    }
  }

  /* ----------------------------- decimal numbers ----------------------------- */

  predicate IsDigit(c: char) {
    '0' <= c <= '9'
  }

  predicate AllDigits(s: string) {
    forall i :: 0 <= i < |s| ==> IsDigit(s[i])
  }

  function DigitChar(d: nat): (c: char)
    requires d < 10
    ensures IsDigit(c)
  {
    (48 + d) as char
  }

  /** The value of a string of decimal digits (leading zeros allowed). */
  function DigitsValue(s: string): nat
    requires AllDigits(s)
  {
    if s == [] then 0 else 10 * DigitsValue(s[..|s| - 1]) + (s[|s| - 1] as int - 48)
  }

  /** `"%d".format(n)` for `n >= 0`: the canonical decimal numeral, no leading zeros. */
  function NatToString(n: nat): (s: string)
    ensures s != [] && AllDigits(s)
    ensures s[0] == '0' ==> s == "0"
  {
    if n < 10 then [DigitChar(n)] else NatToString(n / 10) + [DigitChar(n % 10)]
  }

  lemma {:induction false} DigitsValueOfNatToString(n: nat)
    ensures DigitsValue(NatToString(n)) == n
  {
    if n >= 10 {
      var s := NatToString(n);
      assert s[..|s| - 1] == NatToString(n / 10);
      DigitsValueOfNatToString(n / 10);
    }
  }

  /**
   * `String.toIntOrNull()`: an optional `+` or `-` followed by at least one digit,
   * with a value that fits in an `Int`; anything else is `null`.
   */
  function ParseInt(s: string): (r: Option<int>)
    ensures r.Some? ==> Int32.MIN <= r.value <= Int32.MAX
    ensures s == [] ==> r.None?
  {
    if |s| == 0 then None
    else if s[0] == '-' || s[0] == '+' then
      var digits := s[1..];
      if digits == [] || !AllDigits(digits) then None
      else
        var d: int := DigitsValue(digits);
        var v := if s[0] == '-' then -d else d;
        if Int32.MIN <= v <= Int32.MAX then Some(v) else None
    else if AllDigits(s) then
      var v := DigitsValue(s);
      if v <= Int32.MAX then Some(v) else None
    else None
  }

  /** Formatting a number and parsing it back gives the number. */
  lemma ParseNatToString(n: nat)
    requires n <= Int32.MAX
    ensures ParseInt(NatToString(n)) == Some(n)
  {
    DigitsValueOfNatToString(n);
  }
}
