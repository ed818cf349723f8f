/** The Python `str` operations the backend relies on (`strip`, `split`,
    `lower`, `startswith`, `replace`, `find`, `join`), with Python's
    semantics, and the facts about them the rest of the model uses. */
module PyStr {

  /** Python's `str.isspace()` on one character: exactly the characters that
      `str.strip()` and `str.split()` (without arguments) treat as whitespace. */
  predicate IsSpace(c: char) {
    || c == ' '
    || ('\t' <= c <= '\r')
    || ('\U{1C}' <= c <= '\U{1F}')
    || c == '\U{85}' || c == '\U{A0}' || c == '\U{1680}'
    || ('\U{2000}' <= c <= '\U{200A}')
    || c == '\U{2028}' || c == '\U{2029}' || c == '\U{202F}' || c == '\U{205F}' || c == '\U{3000}'
  }

  predicate NoSpace(s: string) {
    forall i :: 0 <= i < |s| ==> !IsSpace(s[i])
  }

  predicate AllSpace(s: string) {
    forall i :: 0 <= i < |s| ==> IsSpace(s[i])
  }

  /** `s.lstrip()` */
  function StripLeft(s: string): (r: string)
    ensures |r| <= |s| && r == s[|s| - |r|..]
    ensures r == "" || !IsSpace(r[0])
    ensures AllSpace(s[..|s| - |r|])
  {
    if s != "" && IsSpace(s[0]) then StripLeft(s[1..]) else s
  }

  /** `s.rstrip()` */
  function StripRight(s: string): (r: string)
    ensures |r| <= |s| && r == s[..|r|]
    ensures r == "" || !IsSpace(r[|r| - 1])
    ensures AllSpace(s[|r|..])
  {
    if s != "" && IsSpace(s[|s| - 1]) then
      var t := s[..|s| - 1];
      var r := StripRight(t);
      assert r == s[..|r|];
      assert s[|r|..] == t[|r|..] + [s[|s| - 1]];
      r
    else s
  }

  /** Where `s.strip()` starts inside `s`. */
  function StripStart(s: string): nat {
    |s| - |StripLeft(s)|
  }

  /** `s.strip()`: the slice of `s` left when whitespace is removed at both
      ends, which neither starts nor ends with whitespace. */
  function Strip(s: string): (r: string)
    ensures StripStart(s) + |r| <= |s| && r == s[StripStart(s)..StripStart(s) + |r|]
    ensures r == "" || (!IsSpace(r[0]) && !IsSpace(r[|r| - 1]))
  {
    var t := StripLeft(s);
    var r := StripRight(t);
    assert r != "" ==> r[0] == t[0];
    r
  }

  /** `s.strip()` is empty exactly when `s` is blank. */
  lemma StripEmpty(s: string)
    ensures Strip(s) == "" <==> AllSpace(s)
  {
    var t := StripLeft(s);
    var k := |s| - |t|;
    if Strip(s) == "" {
      assert t[0..] == t;
      assert AllSpace(t);
      assert AllSpace(s[..k]);
      forall i | 0 <= i < |s| ensures IsSpace(s[i]) {
        if i < k { assert s[..k][i] == s[i]; } else { assert t[i - k] == s[i]; }
      }
    } else {
      assert s[StripStart(s)] == Strip(s)[0];
    }
  }

  /** A string that neither starts nor ends with whitespace is its own strip. */
  lemma StripFixed(s: string)
    requires s == "" || (!IsSpace(s[0]) && !IsSpace(s[|s| - 1]))
    ensures Strip(s) == s
  {
  }

  /** `strip()` is idempotent. */
  lemma StripIdempotent(s: string)
    ensures Strip(Strip(s)) == Strip(s)
  {
    StripFixed(Strip(s));
  }

  /** Every character of `s.strip()` is a character of `s`. */
  lemma StripChars(s: string, c: char)
    requires c in Strip(s)
    ensures c in s
  {
    var r := Strip(s);
    var k := StripStart(s);
    var j :| 0 <= j < |r| && r[j] == c;
    assert s[k + j] == c;
  }

  /** Python's `c.lower()` restricted to ASCII. */
  function LowerChar(c: char): char {
    if 'A' <= c <= 'Z' then (c as int + 32) as char else c
  }

  /** `s.lower()`, restricted to ASCII letters. */
  function Lower(s: string): (r: string)
    ensures |r| == |s|
    ensures forall i :: 0 <= i < |s| ==> r[i] == LowerChar(s[i])
  {
    seq(|s|, i requires 0 <= i < |s| => LowerChar(s[i]))
  }

  lemma LowerIdempotent(s: string)
    ensures Lower(Lower(s)) == Lower(s)
  {
  }

  /** `s.startswith(prefix)` */
  predicate StartsWith(s: string, prefix: string) {
    |prefix| <= |s| && s[..|prefix|] == prefix
  }

  /** `s.find(c)` for one character: the first index of `c`, or -1. */
  function Find(s: string, c: char): (i: int)
    ensures -1 <= i < |s|
    ensures i == -1 <==> c !in s
    ensures i >= 0 ==> s[i] == c && c !in s[..i]
  {
    if s == "" then -1
    else if s[0] == c then 0
    else
      var j := Find(s[1..], c);
      assert s[1..][..if j < 0 then 0 else j] == s[1..if j < 0 then 1 else j + 1];
      if j < 0 then -1 else j + 1
  }

  /** `s.rfind(c)` for one character: the last index of `c`, or -1. */
  function RFind(s: string, c: char): (i: int)
    ensures -1 <= i < |s|
    ensures i == -1 ==> forall k :: 0 <= k < |s| ==> s[k] != c
    ensures i >= 0 ==> s[i] == c && forall k :: i < k < |s| ==> s[k] != c
  {
    if s == "" then -1
    else if s[|s| - 1] == c then |s| - 1
    else RFind(s[..|s| - 1], c)
  }

  /** `sep.join(parts)` */
  function Join(sep: string, parts: seq<string>): string
    decreases |parts|
  {
    if |parts| == 0 then ""
    else if |parts| == 1 then parts[0]
    else parts[0] + sep + Join(sep, parts[1..])
  }

  /** `s.split(sep)` for a one-character separator: the pieces between
      separators, none of which contains the separator. */
  function Split(s: string, sep: char): (parts: seq<string>)
    ensures |parts| >= 1
    ensures forall k :: 0 <= k < |parts| ==> sep !in parts[k]
    decreases |s|
  {
    var i := Find(s, sep);
    if i < 0 then [s] else [s[..i]] + Split(s[i + 1..], sep)
  }

  /** Joining the pieces of `s.split(sep)` with `sep` gives `s` back. */
  lemma {:induction false} JoinSplit(s: string, sep: char)
    ensures Join([sep], Split(s, sep)) == s
    decreases |s|
  {
    var i := Find(s, sep);
    if i >= 0 {
      SplitAtFirst(s, sep);
      var head, tail := s[..i], s[i + 1..];
      JoinSplit(tail, sep);
      JoinCons([sep], head, Split(tail, sep));
    } else {
      assert Split(s, sep) == [s];
    }
  }

  /** At the first separator, `s` is cut into its first piece and the rest. */
  lemma SplitAtFirst(s: string, sep: char)
    requires Find(s, sep) >= 0
    ensures var i := Find(s, sep);
      && Split(s, sep) == [s[..i]] + Split(s[i + 1..], sep)
      && s == s[..i] + [sep] + s[i + 1..]
  {
  }

  /** Joining a non-empty list behind a first piece puts the separator
      between them. */
  lemma JoinCons(sep: string, first: string, rest: seq<string>)
    requires rest != []
    ensures Join(sep, [first] + rest) == first + sep + Join(sep, rest)
  {
    assert ([first] + rest)[1..] == rest;
  }

  /** Text before the first separator is the first piece. */
  lemma SplitCons(a: string, b: string, sep: char)
    requires sep !in a
    ensures Split(a + [sep] + b, sep) == [a] + Split(b, sep)
  {
    var s := a + [sep] + b;
    assert s[|a|] == sep;
    var i := Find(s, sep);
    assert forall k :: 0 <= k < |a| ==> s[k] == a[k] != sep;
    assert forall k :: 0 <= k < i ==> s[..i][k] == s[k] != sep;
    assert i == |a|;
    assert s[..i] == a && s[i + 1..] == b;
  }

  /** Splitting pieces joined by a separator none of them contains gives
      the pieces back. */
  lemma {:induction false} SplitJoin(parts: seq<string>, sep: char)
    requires |parts| >= 1
    requires forall k :: 0 <= k < |parts| ==> sep !in parts[k]
    ensures Split(Join([sep], parts), sep) == parts
    decreases |parts|
  {
    if |parts| == 1 {
      assert Find(parts[0], sep) == -1;
    } else {
      SplitJoin(parts[1..], sep);
      SplitCons(parts[0], Join([sep], parts[1..]), sep);
      assert parts == [parts[0]] + parts[1..];
    }
  }

  /** `s.split(sep, 1)` for a one-character separator. */
  function SplitOnce(s: string, sep: char): (parts: seq<string>)
    ensures 1 <= |parts| <= 2
    ensures sep !in parts[0]
    ensures |parts| == 1 <==> sep !in s
    ensures |parts| == 1 ==> parts[0] == s
    ensures |parts| == 2 ==> s == parts[0] + [sep] + parts[1]
  {
    var i := Find(s, sep);
    if i < 0 then [s]
    else
      assert s == s[..i] + [sep] + s[i + 1..];
      [s[..i], s[i + 1..]]
  }

  /** When `sep` occurs, the first piece is everything before its first
      occurrence. */
  lemma SplitOnceHead(s: string, sep: char)
    requires Find(s, sep) >= 0
    ensures SplitOnce(s, sep)[0] == s[..Find(s, sep)]
  {
  }

  /** The leading run of non-whitespace characters of `s`. */
  function TakeWord(s: string): (w: string)
    ensures |w| <= |s| && w == s[..|w|] && NoSpace(w)
    ensures |w| == |s| || IsSpace(s[|w|])
  {
    if s == "" || IsSpace(s[0]) then "" else [s[0]] + TakeWord(s[1..])
  }

  /** `s.split()`: the maximal runs of non-whitespace characters. */
  function SplitWhitespace(s: string): (words: seq<string>)
    ensures forall k :: 0 <= k < |words| ==> words[k] != "" && NoSpace(words[k])
    decreases |s|
  {
    var t := StripLeft(s);
    if t == "" then []
    else
      var w := TakeWord(t);
      assert !IsSpace(t[0]);
      assert w != "";
      var rest := SplitWhitespace(t[|w|..]);
      assert forall k :: 0 <= k < |[w] + rest| ==> ([w] + rest)[k] != "" && NoSpace(([w] + rest)[k]) by {
        forall k | 0 <= k < |[w] + rest|
          ensures ([w] + rest)[k] != "" && NoSpace(([w] + rest)[k])
        {
          if k > 0 {
            assert ([w] + rest)[k] == rest[k - 1];
          }
        }
      }
      [w] + rest
  }

  lemma {:induction false} TakeWordAll(s: string)
    requires NoSpace(s)
    ensures TakeWord(s) == s
  {
    if s != "" {
      TakeWordAll(s[1..]);
    }
  }

  /** A single non-blank word without whitespace splits to itself. */
  lemma SplitWhitespaceWord(s: string)
    requires s != "" && NoSpace(s)
    ensures SplitWhitespace(s) == [s]
  {
    TakeWordAll(s);
    assert s[|s|..] == "";
  }

  /** A word followed by whitespace (or nothing) is the first piece of `split()`. */
  lemma SplitWhitespaceCons(w: string, rest: string)
    requires w != "" && NoSpace(w) && (rest == "" || IsSpace(rest[0]))
    ensures SplitWhitespace(w + rest) == [w] + SplitWhitespace(rest)
  {
    var s := w + rest;
    assert s[0] == w[0];
    assert StripLeft(s) == s;
    if rest == "" {
      assert s == w;
      TakeWordAll(w);
    } else {
      TakeWordPrefix(w, rest);
    }
    assert s[|w|..] == rest;
  }

  /** Leading whitespace does not change `split()`. */
  lemma SplitWhitespaceSpace(b: string)
    ensures SplitWhitespace(" " + b) == SplitWhitespace(b)
  {
    assert (" " + b)[1..] == b;
    assert StripLeft(" " + b) == StripLeft(b);
  }

  /** A two-word header `a + " " + b` splits into `[a, b]`. */
  lemma SplitWhitespaceTwoWords(a: string, b: string)
    requires a != "" && NoSpace(a) && b != "" && NoSpace(b)
    ensures SplitWhitespace(a + " " + b) == [a, b]
  {
    var rest := " " + b;
    assert rest[0] == ' ' && a + " " + b == a + rest;
    SplitWhitespaceCons(a, rest);
    SplitWhitespaceSpace(b);
    SplitWhitespaceWord(b);
    assert SplitWhitespace(a + rest) == [a] + [b];
  }

  lemma {:induction false} TakeWordPrefix(a: string, rest: string)
    requires NoSpace(a) && rest != "" && IsSpace(rest[0])
    ensures TakeWord(a + rest) == a
  {
    if a != "" {
      assert (a + rest)[1..] == a[1..] + rest;
      TakeWordPrefix(a[1..], rest);
    } else {
      assert a + rest == rest;
    }
  }

  /** `s.replace(a, b)` for one-character `a` and `b`. */
  function ReplaceChar(s: string, a: char, b: char): (r: string)
    ensures |r| == |s|
    ensures forall i :: 0 <= i < |s| ==> r[i] == (if s[i] == a then b else s[i])
  {
    seq(|s|, i requires 0 <= i < |s| => if s[i] == a then b else s[i])
  }

  /** `pat` occurs in `s` at index `i`. */
  predicate OccursAt(s: string, pat: string, i: nat) {
    i + |pat| <= |s| && s[i..i + |pat|] == pat
  }

  /** `s.replace(pat, "")`: scans left to right and deletes every
      non-overlapping occurrence of `pat`; text that only becomes an
      occurrence after a deletion is not scanned again. */
  function RemoveAll(s: string, pat: string): string
    requires pat != ""
    decreases |s|
  {
    if |s| < |pat| then s
    else if s[..|pat|] == pat then RemoveAll(s[|pat|..], pat)
    else [s[0]] + RemoveAll(s[1..], pat)
  }

  /** Removing a pattern that does not occur changes nothing. */
  lemma {:induction false} RemoveAllAbsent(s: string, pat: string)
    requires pat != ""
    requires forall i: nat :: !OccursAt(s, pat, i)
    ensures RemoveAll(s, pat) == s
    decreases |s|
  {
    if |s| >= |pat| {
      assert !OccursAt(s, pat, 0);
      assert s[0..|pat|] == s[..|pat|];
      forall i: nat ensures !OccursAt(s[1..], pat, i) {
        assert !OccursAt(s, pat, i + 1);
        if i + |pat| <= |s[1..]| {
          assert s[1..][i..i + |pat|] == s[i + 1..i + 1 + |pat|];
        }
      }
      RemoveAllAbsent(s[1..], pat);
      assert s == [s[0]] + s[1..];
    }
  }

  /** Number of occurrences of `c` in `s` (`s.count(c)`). */
  function Count(s: string, c: char): nat {
    if s == "" then 0 else (if s[0] == c then 1 else 0) + Count(s[1..], c)
  }

  function DigitChar(d: nat): char
    requires d < 10
  {
    "0123456789"[d]
  }

  function NatToString(n: nat): string
    decreases n
  {
    if n < 10 then [DigitChar(n)] else NatToString(n / 10) + [DigitChar(n % 10)]
  }

  /** `str(i)` for a Python `int`. */
  function IntToString(i: int): string {
    if i < 0 then "-" + NatToString(-i) else NatToString(i)
  }
}
