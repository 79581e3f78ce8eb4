/** The JavaScript string operations the services and controllers rely on:
    `trim`, `split('\n')`, `toLowerCase` on the purpose labels, `length` in UTF-16
    code units, the `||` default for strings, and the greedy `/\{[\s\S]*\}/` match. */
module Text {
  import opened Outcomes

  /** The code points `String.prototype.trim` removes: JavaScript's WhiteSpace
      (tab, vertical tab, form feed, U+FEFF and every space separator) and its
      LineTerminator characters (line feed, carriage return, U+2028, U+2029). */
  predicate IsSpace(c: char) {
    || c == ' ' || c == '\t' || c == '\n' || c == '\r'
    || c == '\U{000B}' || c == '\U{000C}' || c == '\U{00A0}' || c == '\U{1680}'
    || ('\U{2000}' <= c <= '\U{200A}')
    || c == '\U{2028}' || c == '\U{2029}' || c == '\U{202F}' || c == '\U{205F}'
    || c == '\U{3000}' || c == '\U{FEFF}'
  }

  /** Number of white-space characters at the front of `s`. */
  function LeadingSpace(s: string): (n: nat)
    ensures n <= |s|
    ensures forall i :: 0 <= i < n ==> IsSpace(s[i])
    ensures n == |s| || !IsSpace(s[n])
  {
    if |s| > 0 && IsSpace(s[0]) then 1 + LeadingSpace(s[1..]) else 0
  }

  /** Number of white-space characters at the back of `s`. */
  function TrailingSpace(s: string): (n: nat)
    ensures n <= |s|
    ensures forall i :: |s| - n <= i < |s| ==> IsSpace(s[i])
    ensures n == |s| || !IsSpace(s[|s| - n - 1])
  {
    if |s| > 0 && IsSpace(s[|s| - 1]) then 1 + TrailingSpace(s[..|s| - 1]) else 0
  }

  /** `s.trim()`: the maximal white-space prefix and suffix are removed, nothing else. */
  function Trim(s: string): (r: string)
    ensures r == [] || (!IsSpace(r[0]) && !IsSpace(r[|r| - 1]))
    ensures LeadingSpace(s) + |r| <= |s|
    ensures r == s[LeadingSpace(s)..LeadingSpace(s) + |r|]
    ensures forall i :: LeadingSpace(s) + |r| <= i < |s| ==> IsSpace(s[i])
    ensures forall c :: c in r ==> c in s
  {
    var t := s[LeadingSpace(s)..];
    t[..|t| - TrailingSpace(t)]
  }

  /** Trimming twice is trimming once. */
  lemma TrimIdempotent(s: string)
    ensures Trim(Trim(s)) == Trim(s)
  {
    var r := Trim(s);
    if r != [] {
      assert LeadingSpace(r) == 0;
      assert TrailingSpace(r) == 0;
    }
  }

  /** A string whose first and last characters are not white space is its own trim. */
  lemma TrimOfTrimmed(s: string)
    requires s == [] || (!IsSpace(s[0]) && !IsSpace(s[|s| - 1]))
    ensures Trim(s) == s
  {
    if s != [] {
      assert LeadingSpace(s) == 0;
      assert TrailingSpace(s) == 0;
    }
  }

  /** The string of one character. */
  function Char(c: char): string {
    [c]
  }

  /** `s.split(sep)` for a one-character separator: the pieces between separators, in order. */
  function Split(s: string, sep: char): (parts: seq<string>)
    ensures |parts| >= 1
    ensures forall i :: 0 <= i < |parts| ==> sep !in parts[i]
    ensures Join(parts, sep) == s
  {
    if |s| == 0 then [""]
    else
      var rest := Split(s[1..], sep);
      if s[0] == sep then
        assert ([""] + rest)[1..] == rest;
        [""] + rest
      else
        var parts := [[s[0]] + rest[0]] + rest[1..];
        assert parts[1..] == rest[1..];
        assert s == [s[0]] + s[1..];
        assert sep !in [s[0]] + rest[0];
        parts
  }

  /** `parts.join(sep)`, the inverse of `Split`. */
  function Join(parts: seq<string>, sep: char): string
    requires |parts| >= 1
  {
    if |parts| == 1 then parts[0] else parts[0] + Char(sep) + Join(parts[1..], sep)
  }

  /** Splitting a string with a separator in the middle splits the two halves separately. */
  lemma {:induction false} SplitAround(a: string, b: string, sep: char)
    ensures Split(a + Char(sep) + b, sep) == Split(a, sep) + Split(b, sep)
  {
    if |a| == 0 {
      assert a + Char(sep) + b == [sep] + b;
      assert ([sep] + b)[1..] == b;
    } else {
      var w := a + Char(sep) + b;
      assert w[0] == a[0];
      assert w[1..] == a[1..] + Char(sep) + b;
      SplitAround(a[1..], b, sep);
    }
  }

  /** A string without the separator is a single piece. */
  lemma {:induction false} SplitWithoutSeparator(s: string, sep: char)
    requires sep !in s
    ensures Split(s, sep) == [s]
  {
    if |s| > 0 {
      assert sep !in s[1..];
      SplitWithoutSeparator(s[1..], sep);
      assert s == [s[0]] + s[1..];
    }
  }

  /** Splitting a join of separator-free pieces gives the pieces back. */
  lemma {:induction false} SplitJoin(parts: seq<string>, sep: char)
    requires |parts| >= 1
    requires forall i :: 0 <= i < |parts| ==> sep !in parts[i]
    ensures Split(Join(parts, sep), sep) == parts
  {
    SplitWithoutSeparator(parts[0], sep);
    if |parts| > 1 {
      SplitJoin(parts[1..], sep);
      SplitAround(parts[0], Join(parts[1..], sep), sep);
      assert parts == [parts[0]] + parts[1..];
    }
  }

  /** `c.toLowerCase()` on the ASCII letters. */
  function LowerChar(c: char): char {
    if 'A' <= c <= 'Z' then (c as int + 32) as char else c
  }

  /** `s.toLowerCase()`, ASCII letters only. */
  function Lower(s: string): (r: string)
    ensures |r| == |s|
    ensures forall i :: 0 <= i < |s| ==> r[i] == LowerChar(s[i])
  {
    seq(|s|, i requires 0 <= i < |s| => LowerChar(s[i]))
  }

  /** Lower-casing is idempotent, so a lower-case label is matched by every casing of itself. */
  lemma LowerIdempotent(s: string)
    ensures Lower(Lower(s)) == Lower(s)
  {
  }

  /** `s.length`: the number of UTF-16 code units, two for a code point above U+FFFF. */
  function Utf16Length(s: string): (n: nat)
    ensures |s| <= n <= 2 * |s|
    ensures |s| == 1 ==> n == (if (s[0] as int) < 0x1_0000 then 1 else 2)
    ensures n == |s| <==> forall i :: 0 <= i < |s| ==> (s[i] as int) < 0x1_0000
  {
    if |s| == 0 then 0
    else (if (s[0] as int) < 0x1_0000 then 1 else 2) + Utf16Length(s[1..])
  }

  /** The code units of a concatenation are those of its parts, so with the one-character
      case the length is one unit per character below U+10000 and two per character above. */
  lemma {:induction false} Utf16LengthAppend(a: string, b: string)
    ensures Utf16Length(a + b) == Utf16Length(a) + Utf16Length(b)
    decreases |a|
  {
    if |a| == 0 {
      assert a + b == b;
    } else {
      assert (a + b)[0] == a[0];
      assert (a + b)[1..] == a[1..] + b;
      Utf16LengthAppend(a[1..], b);
    }
  }

  /** JavaScript truthiness of a string that may be `undefined`: the empty string is falsy. */
  predicate Truthy(o: Option<string>) {
    o.Some? && o.value != ""
  }

  /** `o || fallback` for a possibly-missing string. */
  function OrElse(o: Option<string>, fallback: string): (r: string)
    ensures Truthy(o) ==> r == o.value
    ensures !Truthy(o) ==> r == fallback
  {
    if Truthy(o) then o.value else fallback
  }

  /** Some `{` occurs before some `}` in `s`. */
  predicate HasBracePair(s: string) {
    exists a, b :: 0 <= a < b < |s| && s[a] == '{' && s[b] == '}'
  }

  /** Index of the first occurrence of `c` in `s`. */
  function FirstIndex(s: string, c: char): (r: Option<nat>)
    ensures r.None? <==> c !in s
    ensures r.Some? ==> r.value < |s| && s[r.value] == c
    ensures r.Some? ==> forall i :: 0 <= i < r.value ==> s[i] != c
  {
    if |s| == 0 then None
    else if s[0] == c then Some(0)
    else
      assert s == [s[0]] + s[1..];
      match FirstIndex(s[1..], c)
      case None => None
      case Some(k) => Some(k + 1)
  }

  /** Index of the last occurrence of `c` in `s`. */
  function LastIndex(s: string, c: char): (r: Option<nat>)
    ensures r.None? <==> c !in s
    ensures r.Some? ==> r.value < |s| && s[r.value] == c
    ensures r.Some? ==> forall i :: r.value < i < |s| ==> s[i] != c
  {
    if |s| == 0 then None
    else if s[|s| - 1] == c then Some(|s| - 1)
    else
      assert s == s[..|s| - 1] + [s[|s| - 1]];
      LastIndex(s[..|s| - 1], c)
  }

  /** The span matched by the greedy pattern `\{[\s\S]*\}`: it starts at the leftmost `{`
      that has a `}` after it and runs to the last `}`, so it covers every `{ … }` pair. */
  function BraceSpan(s: string): (r: Option<(nat, nat)>)
    ensures r.None? <==> !HasBracePair(s)
    ensures r.Some? ==> r.value.0 < r.value.1 < |s|
    ensures r.Some? ==> s[r.value.0] == '{' && s[r.value.1] == '}'
    ensures r.Some? ==> forall a, b :: 0 <= a < b < |s| && s[a] == '{' && s[b] == '}' ==>
                          r.value.0 <= a && b <= r.value.1
  {
    match (FirstIndex(s, '{'), LastIndex(s, '}'))
    case (Some(i), Some(j)) =>
      if i < j then Some((i, j))
      else
        assert !HasBracePair(s) by {
          forall a, b | 0 <= a < b < |s| && s[a] == '{'
            ensures s[b] != '}'
          {
          }
        }
        None
    case _ => None
  }

  /** The text handed to `JSON.parse`: the greedy `{ … }` match when there is one,
      otherwise the whole content. */
  function JsonCandidate(content: string): (r: string)
    ensures HasBracePair(content) ==> |r| >= 2 && r[0] == '{' && r[|r| - 1] == '}'
    ensures BraceSpan(content).Some? ==>
      r == content[BraceSpan(content).value.0 .. BraceSpan(content).value.1 + 1]
    ensures !HasBracePair(content) ==> r == content
    ensures |r| <= |content|
  {
    match BraceSpan(content)
    case Some((i, j)) => content[i..j + 1]
    case None => content
  }

  /** Extracting from an extracted candidate changes nothing: the candidate is its own
      greedy match, since it opens with `{` and closes with `}`. */
  lemma JsonCandidateIdempotent(content: string)
    ensures JsonCandidate(JsonCandidate(content)) == JsonCandidate(content)
  {
    var r := JsonCandidate(content);
    if HasBracePair(content) {
      assert HasBracePair(r) by { assert r[0] == '{' && r[|r| - 1] == '}'; }
      var sp := BraceSpan(r).value;
      assert sp.0 <= 0 && |r| - 1 <= sp.1;
      assert r[0..|r|] == r;
    }
  }

  /** The extraction is greedy, not balanced: of two separate objects it keeps both and
      the text between them, which is not one JSON value. */
  lemma GreedyNotBalanced()
    ensures JsonCandidate("x{a} {b}") == "{a} {b}"
  {
    var s := "x{a} {b}";
    assert s[1] == '{' && s[7] == '}';
    assert HasBracePair(s);
    var sp := BraceSpan(s).value;
    assert sp.0 <= 1 && sp.1 == 7;
    assert s[0] != '{';
    assert sp.0 == 1;
    assert s[1..8] == "{a} {b}";
  }
}
