/** The pieces of Rust's `str` API that the core relies on, stated over
    `seq<char>`: `char::is_whitespace`, `trim`, `split_whitespace().next()`,
    `find` / `contains`, `ends_with`, `split(',')`, `lines()`, `join(" ")`,
    `parse::<u32>()` and the `{:x}` rendering of an integer. */
module Text {
  import opened Shared

  // ---------------------------------------------------------------------
  // Whitespace, trimming and the first whitespace-delimited token
  // ---------------------------------------------------------------------

  /** `char::is_whitespace`: the Unicode White_Space property. */
  predicate IsWhitespace(c: char) {
    ('\t' <= c <= '\r') || c == ' ' || c == '\U{85}' || c == '\U{A0}' || c == '\U{1680}'
    || ('\U{2000}' <= c <= '\U{200A}') || c == '\U{2028}' || c == '\U{2029}'
    || c == '\U{202F}' || c == '\U{205F}' || c == '\U{3000}'
  }

  predicate AllWhitespace(s: string) {
    forall i :: 0 <= i < |s| ==> IsWhitespace(s[i])
  }

  predicate NoWhitespace(s: string) {
    forall i :: 0 <= i < |s| ==> !IsWhitespace(s[i])
  }

  /** The end of the run of whitespace that starts at `i`. */
  function WhitespaceFrom(s: string, i: nat): (k: nat)
    requires i <= |s|
    ensures i <= k <= |s|
    ensures forall j :: i <= j < k ==> IsWhitespace(s[j])
    ensures k == |s| || !IsWhitespace(s[k])
    decreases |s| - i
  {
    if i < |s| && IsWhitespace(s[i]) then WhitespaceFrom(s, i + 1) else i
  }

  /** The start of the run of whitespace that ends at `i`. */
  function WhitespaceBefore(s: string, i: nat): (k: nat)
    requires i <= |s|
    ensures k <= i
    ensures forall j :: k <= j < i ==> IsWhitespace(s[j])
    ensures k == 0 || !IsWhitespace(s[k - 1])
  {
    if i > 0 && IsWhitespace(s[i - 1]) then WhitespaceBefore(s, i - 1) else i
  }

  /** `trim_start`: the suffix left after dropping leading whitespace. */
  function TrimStart(s: string): (r: string)
    ensures |r| <= |s| && r == s[|s| - |r|..]
    ensures AllWhitespace(s[..|s| - |r|])
    ensures r == [] || !IsWhitespace(r[0])
  {
    var k := WhitespaceFrom(s, 0);
    assert forall j :: 0 <= j < k ==> s[..k][j] == s[j];
    s[k..]
  }

  /** `trim_end`: the prefix left after dropping trailing whitespace. */
  function TrimEnd(s: string): (r: string)
    ensures |r| <= |s| && r == s[..|r|]
    ensures AllWhitespace(s[|r|..])
    ensures r == [] || !IsWhitespace(r[|r| - 1])
  {
    var k := WhitespaceBefore(s, |s|);
    assert forall j :: 0 <= j < |s| - k ==> s[k..][j] == s[k + j];
    s[..k]
  }

  /** `trim`. */
  function Trim(s: string): string {
    TrimEnd(TrimStart(s))
  }

  /** A string is trimmed to nothing exactly when all its characters are whitespace. */
  lemma TrimEmptyIff(s: string)
    ensures Trim(s) == [] <==> AllWhitespace(s)
  {
    var t := TrimStart(s);
    if Trim(s) == [] {
      assert AllWhitespace(t[0..]);
      assert s == s[..|s| - |t|] + t;
    }
  }

  /** A string that neither starts nor ends with whitespace is its own trim. */
  lemma TrimOfTrimmed(s: string)
    requires s == [] || (!IsWhitespace(s[0]) && !IsWhitespace(s[|s| - 1]))
    ensures Trim(s) == s
  {
  }

  /** The longest prefix free of whitespace. */
  function TakeWord(s: string): (w: string)
    ensures |w| <= |s| && w == s[..|w|] && NoWhitespace(w)
    ensures |w| == |s| || IsWhitespace(s[|w|])
  {
    if s == [] || IsWhitespace(s[0]) then [] else [s[0]] + TakeWord(s[1..])
  }

  /** `split_whitespace().next()`. */
  function FirstToken(s: string): (t: Option<string>)
    ensures t.None? <==> AllWhitespace(s)
    ensures t.Some? ==> t.value != [] && NoWhitespace(t.value)
  {
    var r := TrimStart(s);
    if r == [] then
      assert s == s[..|s| - |r|];
      None
    else
      Some(TakeWord(r))
  }

  /** A word followed by whitespace is the first token of whatever follows it. */
  lemma FirstTokenOfWord(w: string, c: char, rest: string)
    requires w != [] && NoWhitespace(w) && IsWhitespace(c)
    ensures FirstToken(w + [c] + rest) == Some(w)
  {
    var s := w + [c] + rest;
    assert s[0] == w[0];
    assert WhitespaceFrom(s, 0) == 0;
    assert TrimStart(s) == s;
    TakeWordPrefix(w, [c] + rest);
    assert s == w + ([c] + rest);
  }

  lemma {:induction false} TakeWordPrefix(w: string, rest: string)
    requires NoWhitespace(w) && (rest == [] || IsWhitespace(rest[0]))
    ensures TakeWord(w + rest) == w
  {
    if w != [] {
      assert (w + rest)[1..] == w[1..] + rest;
      TakeWordPrefix(w[1..], rest);
    }
  }

  /** A whole string without whitespace is its own first token. */
  lemma FirstTokenOfWordOnly(w: string)
    requires w != [] && NoWhitespace(w)
    ensures FirstToken(w) == Some(w)
  {
    TakeWordPrefix(w, []);
    assert w + [] == w;
  }

  // ---------------------------------------------------------------------
  // Searching
  // ---------------------------------------------------------------------

  predicate OccursAt(s: string, m: string, i: nat) {
    i + |m| <= |s| && s[i..i + |m|] == m
  }

  /** `str::contains`. */
  predicate Contains(s: string, m: string) {
    exists i: nat | i <= |s| :: OccursAt(s, m, i)
  }

  /** The first occurrence of `m` at or after `i`. */
  function FindFrom(s: string, m: string, i: nat): (r: Option<nat>)
    requires i <= |s|
    ensures r.Some? ==> i <= r.value && OccursAt(s, m, r.value)
    ensures r.Some? ==> forall j :: i <= j < r.value ==> !OccursAt(s, m, j)
    ensures r.None? ==> forall j: nat :: i <= j ==> !OccursAt(s, m, j)
    decreases |s| - i
  {
    if i + |m| > |s| then None
    else if s[i..i + |m|] == m then Some(i)
    else FindFrom(s, m, i + 1)
  }

  /** `str::find`: the index of the first occurrence, if any. */
  function Find(s: string, m: string): (r: Option<nat>)
    ensures r.Some? <==> Contains(s, m)
    ensures r.Some? ==> OccursAt(s, m, r.value) && forall j :: 0 <= j < r.value ==> !OccursAt(s, m, j)
  {
    FindFrom(s, m, 0)
  }

  predicate StartsWith(s: string, p: string) {
    |p| <= |s| && s[..|p|] == p
  }

  /** `str::ends_with`. */
  predicate EndsWith(s: string, p: string) {
    |p| <= |s| && s[|s| - |p|..] == p
  }

  /** An occurrence in a concatenation lies in one part when the character at
      the seam is not part of the searched text. */
  lemma ContainsSplitAfter(a: string, b: string, m: string)
    requires Contains(a + b, m)
    requires a != [] && a[|a| - 1] !in m
    ensures Contains(a, m) || Contains(b, m)
  {
    var i: nat :| i <= |a + b| && OccursAt(a + b, m, i);
    if i + |m| <= |a| {
      assert (a + b)[i..i + |m|] == a[i..i + |m|];
      assert OccursAt(a, m, i);
    } else if |a| <= i {
      var j := i - |a|;
      assert (a + b)[i..i + |m|] == b[j..j + |m|];
      assert OccursAt(b, m, j);
    } else {
      SeamInside(a, b, m, i, |a| - 1);
    }
  }

  lemma ContainsSplitBefore(a: string, b: string, m: string)
    requires Contains(a + b, m)
    requires b != [] && b[0] !in m
    ensures Contains(a, m) || Contains(b, m)
  {
    var i: nat :| i <= |a + b| && OccursAt(a + b, m, i);
    if i + |m| <= |a| {
      assert (a + b)[i..i + |m|] == a[i..i + |m|];
      assert OccursAt(a, m, i);
    } else if |a| <= i {
      var j := i - |a|;
      assert (a + b)[i..i + |m|] == b[j..j + |m|];
      assert OccursAt(b, m, j);
    } else {
      SeamInside(a, b, m, i, |a|);
    }
  }

  /** Every character covered by an occurrence belongs to the searched text. */
  lemma SeamInside(a: string, b: string, m: string, i: nat, k: nat)
    requires OccursAt(a + b, m, i) && i <= k < i + |m|
    ensures (a + b)[k] in m
  {
    assert (a + b)[k] == m[k - i];
  }

  /** An occurrence of a string at the very start. */
  lemma ContainsPrefix(m: string, rest: string)
    ensures Contains(m + rest, m)
  {
    assert OccursAt(m + rest, m, 0);
  }

  /** `Find` returns any occurrence that has no earlier one. */
  lemma FindFirstIs(s: string, m: string, k: nat)
    requires OccursAt(s, m, k)
    requires forall j :: 0 <= j < k ==> !OccursAt(s, m, j)
    ensures Find(s, m) == Some(k)
  {
    assert Contains(s, m);
  }

  /** Finding a character that first appears right after a prefix free of it. */
  lemma FindCharAfter(a: string, c: char, b: string)
    requires c !in a
    ensures Find(a + [c] + b, [c]) == Some(|a|)
  {
    var s := a + [c] + b;
    assert s[|a|..|a| + 1] == [c];
    forall j | 0 <= j < |a| ensures !OccursAt(s, [c], j) {
      assert s[j..j + 1] == [a[j]];
    }
    FindFirstIs(s, [c], |a|);
  }

  /** A text without the first character of a (non-empty) marker does not contain it. */
  lemma NotContainsWithoutChar(s: string, m: string)
    requires m != [] && m[0] !in s
    ensures !Contains(s, m)
  {
    forall i: nat | i <= |s| ensures !OccursAt(s, m, i) {
    }
  }

  /** A text lacking some character of a marker does not contain it. */
  lemma NotContainsMissingChar(s: string, m: string, k: nat)
    requires k < |m| && m[k] !in s
    ensures !Contains(s, m)
  {
    forall i: nat | i <= |s| ensures !OccursAt(s, m, i) {
      if i + |m| <= |s| {
        assert s[i..i + |m|][k] == s[i + k];
      }
    }
  }

  /** Two texts free of a marker stay free of it when joined at a character
      that is not part of the marker. */
  lemma NotContainsJoined(a: string, b: string, m: string)
    requires !Contains(a, m) && !Contains(b, m)
    requires (a != [] && a[|a| - 1] !in m) || (b != [] && b[0] !in m)
    ensures !Contains(a + b, m)
  {
    if Contains(a + b, m) {
      if a != [] && a[|a| - 1] !in m {
        ContainsSplitAfter(a, b, m);
      } else {
        ContainsSplitBefore(a, b, m);
      }
    }
  }

  /** A marker found right after a prefix that lacks its first character. */
  lemma FindMarkerAfter(a: string, m: string, b: string)
    requires m != [] && m[0] !in a
    ensures Find(a + m + b, m) == Some(|a|)
  {
    var s := a + m + b;
    assert s[|a|..|a| + |m|] == m;
    forall j | 0 <= j < |a| ensures !OccursAt(s, m, j) {
      assert s[j] == a[j];
      if j + |m| <= |s| {
        assert s[j..j + |m|][0] == s[j];
      }
    }
    FindFirstIs(s, m, |a|);
  }

  // ---------------------------------------------------------------------
  // Splitting and joining
  // ---------------------------------------------------------------------

  /** The position of the first `c` in `s`, or `|s|` when there is none. */
  function IndexOf(s: string, c: char): (k: nat)
    ensures k <= |s| && c !in s[..k]
    ensures k < |s| ==> s[k] == c
  {
    if s == [] then 0
    else if s[0] == c then 0
    else
      var k := IndexOf(s[1..], c);
      assert s[..k + 1] == [s[0]] + s[1..][..k];
      k + 1
  }

  /** The first `c` after a stretch without one is found right there. */
  lemma IndexOfAfter(a: string, c: char, b: string)
    requires c !in a
    ensures IndexOf(a + [c] + b, c) == |a|
  {
    var s := a + [c] + b;
    assert s[..|a|] == a && s[|a|] == c;
  }

  /** `str::split(c)` collected: never empty; "" gives [""]. */
  function Split(s: string, c: char): (parts: seq<string>)
    ensures |parts| >= 1
    ensures forall k :: 0 <= k < |parts| ==> c !in parts[k]
    decreases |s|
  {
    var k := IndexOf(s, c);
    if k == |s| then [s] else [s[..k]] + Split(s[k + 1..], c)
  }

  /** Splitting cuts at the first separator: a field without one comes off
      whole, and the rest is split on its own. */
  lemma SplitAtFirst(f: string, c: char, rest: string)
    requires c !in f
    ensures Split(f + [c] + rest, c) == [f] + Split(rest, c)
  {
    var s := f + [c] + rest;
    IndexOfAfter(f, c, rest);
    assert s[..|f|] == f;
    assert s[|f| + 1..] == rest;
  }

  /** Splitting fields that do not contain the separator gives those fields back. */
  lemma {:induction false} SplitJoined(fields: seq<string>, c: char)
    requires |fields| >= 1
    requires forall k :: 0 <= k < |fields| ==> c !in fields[k]
    ensures Split(Join(fields, [c]), c) == fields
  {
    var s := Join(fields, [c]);
    if |fields| == 1 {
      assert s == fields[0];
    } else {
      var f := fields[0];
      assert s == f + [c] + Join(fields[1..], [c]);
      IndexOfAfter(f, c, Join(fields[1..], [c]));
      assert s[..|f|] == f;
      assert s[|f| + 1..] == Join(fields[1..], [c]);
      SplitJoined(fields[1..], c);
      assert fields == [f] + fields[1..];
    }
  }

  /** `[String]::join(sep)`. */
  function Join(parts: seq<string>, sep: string): string {
    if parts == [] then []
    else if |parts| == 1 then parts[0]
    else parts[0] + sep + Join(parts[1..], sep)
  }

  /** Each part with a space in front of it, concatenated: the reference shape
      of "a space-separated argument tail". */
  function SpaceEach(parts: seq<string>): string {
    if parts == [] then [] else " " + parts[0] + SpaceEach(parts[1..])
  }

  lemma {:induction false} JoinSpaceEach(parts: seq<string>)
    requires parts != []
    ensures " " + Join(parts, " ") == SpaceEach(parts)
  {
    if |parts| == 1 {
      assert SpaceEach(parts[1..]) == [];
    } else {
      JoinSpaceEach(parts[1..]);
      assert " " + Join(parts, " ") == " " + parts[0] + (" " + Join(parts[1..], " "));
    }
  }

  /** `str::lines()`: pieces separated by '\n', a '\r' right before the '\n'
      removed, and no empty final piece after a trailing '\n'. */
  function Lines(s: string): (ls: seq<string>)
    ensures |ls| <= |s|
    decreases |s|
  {
    if s == [] then []
    else
      var k := IndexOf(s, '\n');
      if k == |s| then [s] else [StripCarriageReturn(s[..k])] + Lines(s[k + 1..])
  }

  function StripCarriageReturn(line: string): string {
    if line != [] && line[|line| - 1] == '\r' then line[..|line| - 1] else line
  }

  // ---------------------------------------------------------------------
  // Numerals: `{:x}` rendering and `parse::<u32>()`
  // ---------------------------------------------------------------------

  /** The lower-case digit character for a digit value below 16. */
  function DigitChar(d: nat): (c: char)
    requires d < 16
    ensures IsDigitOfBase(c, d + 1) && DigitValue(c) == d
  {
    if d < 10 then ('0' as int + d) as char else ('a' as int + d - 10) as char
  }

  /** The value of a lower-case hexadecimal (or decimal) digit character. */
  function DigitValue(c: char): nat {
    if '0' <= c <= '9' then (c as int - '0' as int) as nat
    else if 'a' <= c <= 'f' then (c as int - 'a' as int + 10) as nat
    else 0
  }

  /** `c` is a digit of base `b` (lower-case letters above nine). */
  predicate IsDigitOfBase(c: char, b: nat) {
    ('0' <= c <= '9' || 'a' <= c <= 'f') && DigitValue(c) < b
  }

  /** `n` written in base `b` with no leading zeros ("0" for zero), as `{:x}` does for 16. */
  function Numeral(n: nat, b: nat): (r: string)
    requires 2 <= b <= 16
    ensures r != []
    ensures forall i :: 0 <= i < |r| ==> IsDigitOfBase(r[i], b)
    decreases n
  {
    if n < b then [DigitChar(n)]
    else
      DivMod(n, b);
      Numeral(n / b, b) + [DigitChar(n % b)]
  }

  lemma DivMod(n: nat, b: nat)
    requires 2 <= b
    ensures n / b * b + n % b == n && n % b < b && (n >= b ==> 0 < n / b < n)
  {
  }

  /** The value of a numeral read in base `b`. */
  function NumeralValue(s: string, b: nat): nat {
    if s == [] then 0 else NumeralValue(s[..|s| - 1], b) * b + DigitValue(s[|s| - 1])
  }

  /** Reading a numeral back gives the number it was written from. */
  lemma {:induction false} NumeralRoundTrip(n: nat, b: nat)
    requires 2 <= b <= 16
    ensures NumeralValue(Numeral(n, b), b) == n
  {
    var s := Numeral(n, b);
    if n < b {
      assert s[..0] == [];
      assert NumeralValue(s, b) == 0 * b + DigitValue(DigitChar(n));
    } else {
      DivMod(n, b);
      var q, d := n / b, n % b;
      assert s == Numeral(q, b) + [DigitChar(d)];
      assert s[..|s| - 1] == Numeral(q, b);
      NumeralRoundTrip(q, b);
      assert NumeralValue(s, b) == q * b + d;
    }
  }

  /** Distinct numbers have distinct numerals. */
  lemma NumeralInjective(n: nat, m: nat, b: nat)
    requires 2 <= b <= 16
    ensures Numeral(n, b) == Numeral(m, b) <==> n == m
  {
    NumeralRoundTrip(n, b);
    NumeralRoundTrip(m, b);
  }

  /** `{:x}`. */
  function Hex(n: nat): string {
    Numeral(n, 16)
  }

  predicate IsDecimalDigit(c: char) {
    '0' <= c <= '9'
  }

  const U32_LIMIT: nat := 0x1_0000_0000

  /** `str::parse::<u32>()`: an optional single '+', then one or more ASCII
      digits whose value fits in 32 bits. */
  function ParseU32(s: string): (r: Option<nat>)
    ensures r.Some? ==> r.value < U32_LIMIT
  {
    if s == [] || s == "+" || s == "-" then None
    else
      var digits := if s[0] == '+' then s[1..] else s;
      if forall i :: 0 <= i < |digits| ==> IsDecimalDigit(digits[i]) then
        var v := NumeralValue(digits, 10);
        if v < U32_LIMIT then Some(v) else None
      else None
  }

  /** The decimal rendering of a 32-bit value parses back to it. */
  lemma ParseU32OfDecimal(n: nat)
    requires n < U32_LIMIT
    ensures ParseU32(Numeral(n, 10)) == Some(n)
  {
    var s := Numeral(n, 10);
    NumeralRoundTrip(n, 10);
    assert forall i :: 0 <= i < |s| ==> IsDecimalDigit(s[i]) by {
      forall i | 0 <= i < |s| ensures IsDecimalDigit(s[i]) {
        assert IsDigitOfBase(s[i], 10);
      }
    }
    assert s != "+" && s != "-" && s[0] != '+' by {
      assert IsDecimalDigit(s[0]);
    }
  }
}
