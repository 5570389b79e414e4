/** Character classes and string operations of JavaScript that the parser relies on. */
module Strings {
  import opened Wrappers

  /** The characters JavaScript's `trim` removes and the regex class `\s` matches:
      the WhiteSpace and LineTerminator code points of ECMAScript. */
  predicate IsSpace(c: char) {
    var n := c as int;
    (0x09 <= n <= 0x0D) || n == 0x20 || n == 0xA0 || n == 0x1680
    || (0x2000 <= n <= 0x200A) || n == 0x2028 || n == 0x2029 || n == 0x202F
    || n == 0x205F || n == 0x3000 || n == 0xFEFF
  }

  /** The characters the regex `.` refuses to match. */
  predicate IsLineTerminator(c: char) {
    c == '\n' || c == '\r' || c as int == 0x2028 || c as int == 0x2029
  }

  /** The regex class `\d`: ASCII digits only. */
  predicate IsDigit(c: char) {
    '0' <= c <= '9'
  }

  predicate AllDigits(s: string) {
    forall k :: 0 <= k < |s| ==> IsDigit(s[k])
  }

  /** No leading and no trailing whitespace. */
  predicate IsTrimmed(s: string) {
    s == [] || (!IsSpace(s[0]) && !IsSpace(s[|s| - 1]))
  }

  /** The first position at or after `p` that does not hold whitespace
      (a greedy `\s*` starting at `p` ends there). */
  function SkipSpaces(s: string, p: nat): (q: nat)
    requires p <= |s|
    ensures p <= q <= |s|
    ensures forall k :: p <= k < q ==> IsSpace(s[k])
    ensures q == |s| || !IsSpace(s[q])
    decreases |s| - p
  {
    if p < |s| && IsSpace(s[p]) then SkipSpaces(s, p + 1) else p
  }

  /** The first position at or after `from` holding `c`. */
  function IndexOf(s: string, c: char, from: nat): (r: Option<nat>)
    ensures r.Some? ==> from <= r.value < |s| && s[r.value] == c
    ensures r.Some? ==> forall k :: from <= k < r.value ==> s[k] != c
    ensures r.None? ==> forall k :: from <= k < |s| ==> s[k] != c
    decreases |s| - from
  {
    if from >= |s| then None
    else if s[from] == c then Some(from)
    else IndexOf(s, c, from + 1)
  }

  /** `IndexOf` finds the first occurrence. */
  lemma IndexOfFirst(s: string, c: char, from: nat, j: nat)
    requires from <= j < |s| && s[j] == c
    requires forall k :: from <= k < j ==> s[k] != c
    ensures IndexOf(s, c, from) == Some(j)
  {
  }

  /** The first position at or after `from` holding a line terminator, or `|s|`
      (a greedy `.*` starting at `from` ends there). */
  function LineEnd(s: string, from: nat): (e: nat)
    requires from <= |s|
    ensures from <= e <= |s|
    ensures forall k :: from <= k < e ==> !IsLineTerminator(s[k])
    ensures e == |s| || IsLineTerminator(s[e])
    decreases |s| - from
  {
    if from < |s| && !IsLineTerminator(s[from]) then LineEnd(s, from + 1) else from
  }

  /** The position just past the last non-whitespace character before `e`
      (0 when there is none). */
  function SkipSpacesBack(s: string, e: nat): (b: nat)
    requires e <= |s|
    ensures b <= e
    ensures forall k :: b <= k < e ==> IsSpace(s[k])
    ensures b == 0 || !IsSpace(s[b - 1])
    decreases e
  {
    if e > 0 && IsSpace(s[e - 1]) then SkipSpacesBack(s, e - 1) else e
  }

  predicate AllSpaces(s: string) {
    forall k :: 0 <= k < |s| ==> IsSpace(s[k])
  }

  /** `r` is the slice of `s` starting at `i` and only whitespace surrounds it. */
  predicate IsCoreAt(s: string, r: string, i: nat) {
    i + |r| <= |s| && r == s[i..i + |r|]
    && (forall k :: 0 <= k < i ==> IsSpace(s[k]))
    && (forall k :: i + |r| <= k < |s| ==> IsSpace(s[k]))
  }

  /** JavaScript's `String.prototype.trim`: the slice of `s` left once the
      leading and trailing whitespace are removed. */
  function Trim(s: string): (r: string)
    ensures IsTrimmed(r)
    ensures r == [] <==> AllSpaces(s)
    ensures forall c :: c in r ==> c in s
  {
    var i := SkipSpaces(s, 0);
    var j := SkipSpacesBack(s, |s|);
    if i < j then
      assert forall c :: c in s[i..j] ==> c in s by {
        forall c | c in s[i..j] ensures c in s {
          var k :| i <= k < j && s[k] == c;
        }
      }
      s[i..j]
    else
      []
  }

  /** The trimmed string is the slice of `s` that only whitespace surrounds. */
  lemma TrimIsCore(s: string)
    ensures IsCoreAt(s, Trim(s), SkipSpaces(s, 0))
  {
  }

  /** A greedy `\s*` from `i` over a whitespace run ends where the run ends. */
  lemma {:induction false} SkipGap(s: string, i: nat, j: nat)
    requires i <= j <= |s|
    requires forall k :: i <= k < j ==> IsSpace(s[k])
    requires j == |s| || !IsSpace(s[j])
    ensures SkipSpaces(s, i) == j
    decreases j - i
  {
    if i < j {
      SkipGap(s, i + 1, j);
    }
  }

  /** Reading a pattern left to right: a greedy `\s*` at `i` over a whitespace
      run `ws` stops at the token that follows it. */
  lemma SkipOver(s: string, i: nat, ws: string, tail: string)
    requires i <= |s| && s[i..] == ws + tail && AllSpaces(ws)
    requires tail == [] || !IsSpace(tail[0])
    ensures SkipSpaces(s, i) == i + |ws| && s[i + |ws|..] == tail
  {
    var j := i + |ws|;
    assert forall k :: i <= k < j ==> s[k] == s[i..][k - i] == ws[k - i];
    assert j < |s| ==> s[j] == s[i..][|ws|] == tail[0];
    SkipGap(s, i, j);
    assert s[j..] == s[i..][|ws|..];
  }

  /** A `\s` run at `i` followed by a token: returns where the token starts. */
  lemma SkipToken(text: string, i: nat, ws: string, tail: string) returns (j: nat)
    requires i <= |text| && text[i..] == ws + tail && AllSpaces(ws)
    requires tail != [] && !IsSpace(tail[0])
    ensures j == i + |ws| && SkipSpaces(text, i) == j && j <= |text| && text[j..] == tail
  {
    SkipOver(text, i, ws, tail);
    j := i + |ws|;
  }

  /** Reading a pattern left to right: a literal piece `x` at `i`. */
  lemma ReadOver(s: string, i: nat, x: string, tail: string)
    requires i <= |s| && s[i..] == x + tail
    ensures i + |x| <= |s| && s[i..i + |x|] == x && s[i + |x|..] == tail
  {
    assert s[i..i + |x|] == s[i..][..|x|];
    assert s[i + |x|..] == s[i..][|x|..];
  }

  /** Reading a pattern left to right: a single literal character at `i`. */
  lemma CharOver(s: string, i: nat, x: string, tail: string)
    requires |x| == 1 && i <= |s| && s[i..] == x + tail
    ensures i < |s| && s[i] == x[0] && s[i + 1..] == tail
  {
    assert s[i] == s[i..][0];
    assert s[i + 1..] == s[i..][1..];
  }

  /** A suffix is a slice followed by the suffix after it. */
  lemma Unread(s: string, i: nat, j: nat)
    requires i <= j <= |s|
    ensures s[i..] == s[i..j] + s[j..]
  {
  }

  /** The whitespace run between two positions, as a string. */
  lemma RunIsSpaces(s: string, i: nat, j: nat)
    requires i <= j <= |s| && forall k :: i <= k < j ==> IsSpace(s[k])
    ensures AllSpaces(s[i..j])
  {
    assert forall k :: 0 <= k < j - i ==> s[i..j][k] == s[i + k];
  }

  /** Skipping whitespace backwards from `e` over a run stops where the run starts. */
  lemma {:induction false} SkipBackGap(s: string, b: nat, e: nat)
    requires b <= e <= |s|
    requires forall k :: b <= k < e ==> IsSpace(s[k])
    requires b == 0 || !IsSpace(s[b - 1])
    ensures SkipSpacesBack(s, e) == b
    decreases e - b
  {
    if b < e {
      SkipBackGap(s, b, e - 1);
    }
  }

  /** Trimming removes exactly the whitespace padding around a trimmed core. */
  lemma TrimPadded(before: string, x: string, after: string)
    requires AllSpaces(before) && AllSpaces(after) && IsTrimmed(x) && x != []
    ensures Trim(before + x + after) == x
  {
    var s := before + x + after;
    var i := |before|;
    var j := |before| + |x|;
    assert s[i] == x[0] && s[j - 1] == x[|x| - 1];
    SkipGap(s, 0, i);
    SkipBackGap(s, j, |s|);
    assert s[i..j] == x;
  }

  /** Trimming a string that has no surrounding whitespace changes nothing. */
  lemma TrimTrimmed(s: string)
    requires IsTrimmed(s)
    ensures Trim(s) == s
  {
    if s != [] {
      TrimPadded([], s, []);
      assert [] + s + [] == s;
    }
  }

  /** JavaScript's `s.split(c)` for a one-character separator: the pieces
      between the occurrences of `sep`, always at least one. */
  function Split(s: string, sep: char): (parts: seq<string>)
    ensures |parts| >= 1
    ensures forall k :: 0 <= k < |parts| ==> sep !in parts[k]
    decreases |s|
  {
    match IndexOf(s, sep, 0)
    case None => [s]
    case Some(k) => [s[..k]] + Split(s[k + 1..], sep)
  }

  /** JavaScript's `parts.join(sep)`. */
  function Join(parts: seq<string>, sep: string): string
    requires |parts| >= 1
    decreases |parts|
  {
    if |parts| == 1 then parts[0] else parts[0] + sep + Join(parts[1..], sep)
  }

  /** Splitting after a separator-free first piece peels that piece off. */
  lemma SplitAfter(head: string, sep: char, tail: string)
    requires sep !in head
    ensures Split(head + [sep] + tail, sep) == [head] + Split(tail, sep)
  {
    var s := head + [sep] + tail;
    assert s[|head|] == sep;
    assert forall k :: 0 <= k < |head| ==> s[k] == head[k];
    assert s[..|head|] == head && s[|head| + 1..] == tail;
  }

  /** The first piece of a split is everything up to the first separator. */
  lemma SplitFirst(head: string, sep: char, tail: string)
    requires sep !in head
    requires tail == [] || tail[0] == sep
    ensures Split(head + tail, sep)[0] == head
  {
    if tail == [] {
      assert head + tail == head;
    } else {
      assert head + tail == head + [sep] + tail[1..];
      SplitAfter(head, sep, tail[1..]);
    }
  }

  /** Joining the pieces of a split gives back the string. */
  lemma {:induction false} JoinSplit(s: string, sep: char)
    ensures Join(Split(s, sep), [sep]) == s
    decreases |s|
  {
    match IndexOf(s, sep, 0)
    case None =>
    case Some(k) =>
      var rest := Split(s[k + 1..], sep);
      var parts := [s[..k]] + rest;
      assert Split(s, sep) == parts;
      assert parts[1..] == rest;
      assert Join(parts, [sep]) == s[..k] + [sep] + Join(rest, [sep]);
      JoinSplit(s[k + 1..], sep);
      assert s == s[..k] + [sep] + s[k + 1..];
  }

  /** Splitting a join of separator-free pieces gives back the pieces. */
  lemma {:induction false} SplitJoin(parts: seq<string>, sep: char)
    requires |parts| >= 1
    requires forall k :: 0 <= k < |parts| ==> sep !in parts[k]
    ensures Split(Join(parts, [sep]), sep) == parts
    decreases |parts|
  {
    if |parts| == 1 {
      assert IndexOf(parts[0], sep, 0) == None;
    } else {
      SplitJoin(parts[1..], sep);
      SplitAfter(parts[0], sep, Join(parts[1..], [sep]));
      assert parts == [parts[0]] + parts[1..];
    }
  }

  /** ASCII upper-casing of one character. */
  function UpperAscii(c: char): char {
    if 'a' <= c <= 'z' then (c as int - 32) as char else c
  }

  /** `toUpperCase`, restricted to the ASCII letters. */
  function ToUpper(s: string): (r: string) {
    seq(|s|, k requires 0 <= k < |s| => UpperAscii(s[k]))
  }

  predicate HasNoLowerAscii(s: string) {
    forall k :: 0 <= k < |s| ==> !('a' <= s[k] <= 'z')
  }

  /** Upper-casing leaves no lower-case ASCII letter, keeps every non-letter and
      is idempotent. */
  lemma ToUpperFacts(s: string)
    ensures |ToUpper(s)| == |s| && HasNoLowerAscii(ToUpper(s))
    ensures forall k :: 0 <= k < |s| ==> (IsSpace(ToUpper(s)[k]) <==> IsSpace(s[k]))
    ensures ToUpper(ToUpper(s)) == ToUpper(s)
  {
  }

  /** Upper-casing works character by character. */
  lemma ToUpperAppend(a: string, b: string)
    ensures ToUpper(a + b) == ToUpper(a) + ToUpper(b)
  {
  }

  /** Equality under the case folding of a regex with the `i` flag and no `u`
      flag, which for these literal patterns folds ASCII letters only. */
  predicate EqualsIgnoreCase(a: string, b: string) {
    ToUpper(a) == ToUpper(b)
  }

  /** `needle` occurs in `hay` at position `i`, ignoring ASCII case. */
  predicate OccursAt(hay: string, needle: string, i: nat) {
    i + |needle| <= |hay| && EqualsIgnoreCase(hay[i..i + |needle|], needle)
  }

  /** Whether `needle` occurs in `hay` as a substring, ignoring ASCII case
      (a `new RegExp(needle, "i")` test for a needle without metacharacters). */
  function ContainsIgnoreCase(hay: string, needle: string): (b: bool)
    ensures b <==> exists i :: OccursAt(hay, needle, i)
    decreases |hay|
  {
    if |needle| > |hay| then false
    else if EqualsIgnoreCase(hay[..|needle|], needle) then
      assert OccursAt(hay, needle, 0);
      true
    else
      assert !OccursAt(hay, needle, 0) by {
        assert hay[0..0 + |needle|] == hay[..|needle|];
      }
      OccursShift(hay, needle);
      ContainsIgnoreCase(hay[1..], needle)
  }

  /** Past a position where it does not occur, `needle` occurs in `hay`
      exactly when it occurs in the rest of `hay`. */
  lemma OccursShift(hay: string, needle: string)
    requires hay != [] && !OccursAt(hay, needle, 0)
    ensures (exists i :: OccursAt(hay, needle, i)) <==> (exists j :: OccursAt(hay[1..], needle, j))
  {
    forall j: nat | OccursAt(hay[1..], needle, j) ensures OccursAt(hay, needle, j + 1) {
      assert hay[1..][j..j + |needle|] == hay[j + 1..j + 1 + |needle|];
    }
    forall i: nat | OccursAt(hay, needle, i) ensures i >= 1 && OccursAt(hay[1..], needle, i - 1) {
      assert hay[i..i + |needle|] == hay[1..][i - 1..i - 1 + |needle|];
    }
  }

  function DigitValue(c: char): nat
    requires IsDigit(c)
  {
    c as int - '0' as int
  }

  function DigitChar(d: nat): char
    requires d < 10
  {
    ('0' as int + d) as char
  }

  /** `parseInt(s, 10)` of a string of decimal digits. */
  function ParseDigits(s: string): nat
    requires AllDigits(s)
    decreases |s|
  {
    if s == [] then 0 else ParseDigits(s[..|s| - 1]) * 10 + DigitValue(s[|s| - 1])
  }

  /** A number printed by a template literal: decimal digits, no leading zero. */
  function NatToString(n: nat): (r: string)
    ensures r != [] && AllDigits(r)
    ensures |r| > 1 ==> r[0] != '0'
    decreases n
  {
    if n < 10 then [DigitChar(n)] else NatToString(n / 10) + [DigitChar(n % 10)]
  }

  /** Printing a number and parsing it back gives the number. */
  lemma {:induction false} ParsePrinted(n: nat)
    ensures ParseDigits(NatToString(n)) == n
    decreases n
  {
    if n >= 10 {
      ParsePrinted(n / 10);
      var s := NatToString(n);
      assert s[..|s| - 1] == NatToString(n / 10);
    }
  }

  /** A digit string without a leading zero has a positive value. */
  lemma {:induction false} LeadingDigitPositive(s: string)
    requires AllDigits(s) && s != [] && s[0] != '0'
    ensures ParseDigits(s) > 0
    decreases |s|
  {
    if |s| > 1 {
      LeadingDigitPositive(s[..|s| - 1]);
    }
  }

  /** Parsing a digit string without a leading zero and printing the number
      gives the digit string back. */
  lemma {:induction false} PrintParsed(s: string)
    requires AllDigits(s) && s != [] && s[0] != '0'
    ensures NatToString(ParseDigits(s)) == s
    decreases |s|
  {
    var init := s[..|s| - 1];
    if |s| > 1 {
      PrintParsed(init);
      LeadingDigitPositive(init);
      var n := ParseDigits(s);
      assert n / 10 == ParseDigits(init) && n % 10 == DigitValue(s[|s| - 1]);
      assert s == init + [s[|s| - 1]];
    }
  }

  /** The leftmost position `q >= p` at which the anchored matcher `at`
      succeeds, with what it matched: how `String.prototype.match` searches
      a string for a regex without the `g` flag. */
  function FirstMatch<T>(s: string, p: nat, at: (string, nat) -> Option<T>): (r: Option<(nat, T)>)
    ensures r.Some? ==> p <= r.value.0 <= |s| && at(s, r.value.0) == Some(r.value.1)
    ensures forall q :: p <= q <= |s| && (r.None? || q < r.value.0) ==> at(s, q).None?
    decreases |s| + 1 - p
  {
    if p > |s| then None
    else match at(s, p)
      case Some(v) => Some((p, v))
      case None => FirstMatch(s, p + 1, at)
  }

  /** A match at `p` with none before it is the leftmost one. */
  lemma FirstMatchIs<T>(s: string, p: nat, at: (string, nat) -> Option<T>, v: T)
    requires p <= |s| && at(s, p) == Some(v)
    requires forall q :: 0 <= q < p ==> at(s, q).None?
    ensures FirstMatch(s, 0, at) == Some((p, v))
  {
  }
}
