/**
 The JavaScript string operations the user schema and the upload filter rely on:
 String.prototype.trim, toLowerCase, includes and a suffix test.
 Strings are sequences of Unicode scalar values.
 */
module Text {

  /** The WhiteSpace and LineTerminator code points that JavaScript's trim removes. */
  predicate IsSpace(c: char) {
    || c == '\t' || c == '\n' || c == '\U{B}' || c == '\U{C}' || c == '\r' || c == ' '
    || c == '\U{A0}' || c == '\U{1680}' || ('\U{2000}' <= c <= '\U{200A}')
    || c == '\U{2028}' || c == '\U{2029}' || c == '\U{202F}' || c == '\U{205F}'
    || c == '\U{3000}' || c == '\U{FEFF}'
  }

  predicate AllSpace(s: string) {
    forall i :: 0 <= i < |s| ==> IsSpace(s[i])
  }

  /** Neither end of `s` is white space. */
  predicate Trimmed(s: string) {
    s == [] || (!IsSpace(s[0]) && !IsSpace(s[|s| - 1]))
  }

  /** `t` sits at offset `i` of `s`, and everything of `s` around it is white space. */
  predicate Padding(s: string, i: int, t: string) {
    && 0 <= i && i + |t| <= |s|
    && (forall k :: 0 <= k < |t| ==> s[i + k] == t[k])
    && (forall p :: 0 <= p < i ==> IsSpace(s[p]))
    && (forall p :: i + |t| <= p < |s| ==> IsSpace(s[p]))
  }

  /** The number of white-space characters `s` starts with. */
  function Lead(s: string): (n: nat)
    ensures n <= |s|
    ensures forall p :: 0 <= p < n ==> IsSpace(s[p])
    ensures n == |s| || !IsSpace(s[n])
  {
    if s != [] && IsSpace(s[0]) then 1 + Lead(s[1..]) else 0
  }

  /** The number of white-space characters `s` ends with. */
  function Trail(s: string): (n: nat)
    ensures n <= |s|
    ensures forall p :: |s| - n <= p < |s| ==> IsSpace(s[p])
    ensures n == |s| || !IsSpace(s[|s| - 1 - n])
  {
    if s != [] && IsSpace(s[|s| - 1]) then 1 + Trail(s[..|s| - 1]) else 0
  }

  /** String.prototype.trim. */
  function Trim(s: string): (r: string)
    ensures Trimmed(r)
    ensures Padding(s, Lead(s), r)
  {
    if Lead(s) == |s| then [] else s[Lead(s)..|s| - Trail(s)]
  }

  /** A trimmed string that `s` pads is `Trim(s)`: the result of trim is determined by
      the two properties Trim promises. */
  lemma TrimUnique(s: string, i: int, t: string)
    requires Trimmed(t) && Padding(s, i, t)
    ensures Trim(s) == t
  {
    var r := Trim(s);
    var j := Lead(s);
    if t != [] {
      assert !IsSpace(s[i]) && !IsSpace(s[i + |t| - 1]);
    }
    if r != [] {
      assert !IsSpace(s[j]) && !IsSpace(s[j + |r| - 1]);
    }
    assert i == j || (t == [] && r == []);
    assert |t| == |r|;
  }

  lemma TrimOfTrimmed(s: string)
    requires Trimmed(s)
    ensures Trim(s) == s
  {
    TrimUnique(s, 0, s);
  }

  /** Trimming twice is trimming once. */
  lemma TrimIdempotent(s: string)
    ensures Trim(Trim(s)) == Trim(s)
  {
    TrimOfTrimmed(Trim(s));
  }

  /** toLowerCase on one character; only A-Z have a lower-case form in this model. */
  function LowerChar(c: char): char {
    if 'A' <= c <= 'Z' then (c as int + 32) as char else c
  }

  /** String.prototype.toLowerCase, restricted to the ASCII letters. */
  function ToLower(s: string): (r: string)
    ensures |r| == |s|
    ensures forall i :: 0 <= i < |s| ==> r[i] == LowerChar(s[i])
  {
    if s == [] then [] else [LowerChar(s[0])] + ToLower(s[1..])
  }

  predicate NoUpper(s: string) {
    forall i :: 0 <= i < |s| ==> !('A' <= s[i] <= 'Z')
  }

  lemma ToLowerHasNoUpper(s: string)
    ensures NoUpper(ToLower(s)) && ToLower(ToLower(s)) == ToLower(s)
  {
  }

  /** Lower-casing keeps white space where it was. */
  lemma ToLowerPadding(s: string, i: int, t: string)
    requires Padding(s, i, t)
    ensures Padding(ToLower(s), i, ToLower(t))
  {
    var ls, lt := ToLower(s), ToLower(t);
    forall k | 0 <= k < |t| ensures ls[i + k] == lt[k] {
      assert s[i + k] == t[k];
    }
    forall p | 0 <= p < |s| && IsSpace(s[p]) ensures IsSpace(ls[p]) {
      assert ls[p] == s[p];
    }
  }

  /** Lower-casing does not turn a character into white space or back. */
  lemma ToLowerTrimmed(t: string)
    requires Trimmed(t)
    ensures Trimmed(ToLower(t))
  {
    if t != [] {
      assert ToLower(t)[0] == LowerChar(t[0]);
      assert ToLower(t)[|t| - 1] == LowerChar(t[|t| - 1]);
    }
  }

  /** Trimming and lower-casing commute, so the order in which the two setters of a
      field run does not matter. */
  lemma TrimLowerCommute(s: string)
    ensures ToLower(Trim(s)) == Trim(ToLower(s))
  {
    var t, i := Trim(s), Lead(s);
    ToLowerPadding(s, i, t);
    ToLowerTrimmed(t);
    TrimUnique(ToLower(s), i, ToLower(t));
  }

  predicate StartsWith(s: string, prefix: string) {
    |prefix| <= |s| && s[..|prefix|] == prefix
  }

  /** `sub` occurs in `s` starting at position `i`. */
  predicate OccursAt(s: string, sub: string, i: int) {
    0 <= i && i + |sub| <= |s| && s[i..i + |sub|] == sub
  }

  /** String.prototype.includes. */
  function Contains(s: string, sub: string): (r: bool)
    ensures r <==> exists i :: OccursAt(s, sub, i)
  {
    if StartsWith(s, sub) then
      assert OccursAt(s, sub, 0);
      true
    else if s == [] then
      false
    else
      OccursInTail(s, sub);
      Contains(s[1..], sub)
  }

  /** Past the first position, the occurrences in `s` are those in its tail, shifted. */
  lemma OccursInTail(s: string, sub: string)
    requires s != [] && !StartsWith(s, sub)
    ensures (exists i :: OccursAt(s, sub, i)) <==> exists i :: OccursAt(s[1..], sub, i)
  {
    if i :| OccursAt(s, sub, i) {
      assert i != 0;
      assert s[1..][i - 1..i - 1 + |sub|] == s[i..i + |sub|];
      assert OccursAt(s[1..], sub, i - 1);
    }
    if i :| OccursAt(s[1..], sub, i) {
      assert s[1..][i..i + |sub|] == s[i + 1..i + 1 + |sub|];
      assert OccursAt(s, sub, i + 1);
    }
  }

  /** An occurrence of a word without white space is never cut by trimming: `includes`
      gives the same answer before and after trim. */
  lemma ContainsIgnoresPadding(s: string, word: string)
    requires word != [] && forall k :: 0 <= k < |word| ==> !IsSpace(word[k])
    ensures Contains(Trim(s), word) <==> Contains(s, word)
  {
    if Contains(Trim(s), word) {
      var k :| OccursAt(Trim(s), word, k);
      OccurrenceWidens(s, Trim(s), Lead(s), word, k);
    }
    if Contains(s, word) {
      var k :| OccursAt(s, word, k);
      OccurrenceNarrows(s, Trim(s), Lead(s), word, k);
    }
  }

  lemma OccurrenceWidens(s: string, t: string, i: int, word: string, k: int)
    requires Padding(s, i, t) && OccursAt(t, word, k)
    ensures OccursAt(s, word, i + k)
  {
    OccursAtPointwise(t, word, k);
    forall m | 0 <= m < |word| ensures s[i + k + m] == word[m] {
      assert s[i + (k + m)] == t[k + m];
    }
    OccursAtPointwise(s, word, i + k);
  }

  lemma OccurrenceNarrows(s: string, t: string, i: int, word: string, k: int)
    requires word != [] && forall m :: 0 <= m < |word| ==> !IsSpace(word[m])
    requires Padding(s, i, t) && OccursAt(s, word, k)
    ensures OccursAt(t, word, k - i)
  {
    OccursAtPointwise(s, word, k);
    assert !IsSpace(s[k]) && !IsSpace(s[k + |word| - 1]);
    assert i <= k && k + |word| <= i + |t|;
    forall m | 0 <= m < |word| ensures t[k - i + m] == word[m] {
      assert s[i + (k - i + m)] == t[k - i + m];
    }
    OccursAtPointwise(t, word, k - i);
  }

  lemma OccursAtPointwise(s: string, sub: string, i: int)
    requires 0 <= i && i + |sub| <= |s|
    ensures OccursAt(s, sub, i) <==> forall k :: 0 <= k < |sub| ==> s[i + k] == sub[k]
  {
    if forall k :: 0 <= k < |sub| ==> s[i + k] == sub[k] {
      assert s[i..i + |sub|] == sub;
    }
  }

  /** String.prototype.endsWith: `s` is some string followed by `suffix`. */
  function EndsWith(s: string, suffix: string): (r: bool)
    ensures r <==> exists p :: s == p + suffix
  {
    if |suffix| <= |s| && s[|s| - |suffix|..] == suffix then
      assert s == s[..|s| - |suffix|] + suffix;
      true
    else
      SuffixOfConcat(s, suffix);
      false
  }

  lemma SuffixOfConcat(s: string, suffix: string)
    ensures forall p :: s == p + suffix ==> |suffix| <= |s| && s[|s| - |suffix|..] == suffix
  {
    forall p | s == p + suffix ensures |suffix| <= |s| && s[|s| - |suffix|..] == suffix {
      assert (p + suffix)[|p|..] == suffix;
    }
  }

  /** The decimal form JavaScript's String(n) gives an integer below 10^21 in magnitude. */
  function Decimal(n: int): (r: string)
    ensures r != []
    ensures n < 0 <==> r[0] == '-'
    ensures var k0 := if n < 0 then 1 else 0;
      && k0 < |r| && (forall k :: k0 <= k < |r| ==> '0' <= r[k] <= '9')
      && (|r| > k0 + 1 ==> r[k0] != '0')
    ensures DecimalValue(r) == n
  {
    if n < 0 then
      var d := Digits(-n);
      assert ("-" + d)[1..] == d;
      "-" + d
    else Digits(n)
  }

  /** The digits of a natural number, most significant first, without leading zeros. */
  function Digits(n: nat): (r: string)
    ensures r != [] && forall k :: 0 <= k < |r| ==> '0' <= r[k] <= '9'
    ensures |r| > 1 ==> r[0] != '0'
    ensures DigitsValue(r) == n
  {
    if n < 10 then [('0' as int + n) as char]
    else
      var high := Digits(n / 10);
      var r := high + [('0' as int + n % 10) as char];
      assert r[..|r| - 1] == high;
      r
  }

  /** The number a string of decimal digits spells. */
  function DigitsValue(s: string): int
    decreases |s|
  {
    if s == [] then 0 else 10 * DigitsValue(s[..|s| - 1]) + (s[|s| - 1] as int - '0' as int)
  }

  /** The number a decimal string with an optional leading minus sign spells. */
  function DecimalValue(s: string): int {
    if s != [] && s[0] == '-' then -DigitsValue(s[1..]) else DigitsValue(s)
  }
}
