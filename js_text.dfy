/**
 * The JavaScript string built-ins the route handlers use, over ASCII text:
 * the regular-expression classes `\w` and `\s`, `toLowerCase`, `split`,
 * `join`, `trim`, `startsWith`, `includes` and `substring`.
 */
module JsText {

  /** `\w` in a regular expression without the `u` flag. */
  predicate IsWordChar(c: char) {
    'a' <= c <= 'z' || 'A' <= c <= 'Z' || '0' <= c <= '9' || c == '_'
  }

  /** `\s`, and what `trim` removes: the ECMAScript white space and line terminators. */
  predicate IsSpace(c: char) {
    c == ' ' || c == '\t' || c == '\n' || c == '\r' || c == '\U{B}' || c == '\U{C}' ||
    c == '\U{A0}' || c == '\U{1680}' || '\U{2000}' <= c <= '\U{200A}' ||
    c == '\U{2028}' || c == '\U{2029}' || c == '\U{202F}' || c == '\U{205F}' ||
    c == '\U{3000}' || c == '\U{FEFF}'
  }

  /** `[a-z0-9]` */
  predicate IsLowerAlnum(c: char) {
    'a' <= c <= 'z' || '0' <= c <= '9'
  }

  /** `toLowerCase` on one character (ASCII letters only). */
  function LowerChar(c: char): (d: char)
    ensures IsWordChar(d) == IsWordChar(c)
    ensures !('A' <= d <= 'Z')
    ensures IsLowerAlnum(d) <==> IsLowerAlnum(c) || 'A' <= c <= 'Z'
  {
    if 'A' <= c <= 'Z' then (c as int + 32) as char else c
  }

  /** `toLowerCase` */
  function Lower(s: string): (r: string)
    ensures |r| == |s|
    ensures forall i :: 0 <= i < |s| ==> r[i] == LowerChar(s[i])
  {
    seq(|s|, i requires 0 <= i < |s| => LowerChar(s[i]))
  }

  /** `s.startsWith(prefix)` */
  predicate StartsWith(s: string, prefix: string) {
    |prefix| <= |s| && s[..|prefix|] == prefix
  }

  /** `s.includes(part)` */
  predicate Includes(s: string, part: string)
    decreases |s|
  {
    StartsWith(s, part) || (|s| > 0 && Includes(s[1..], part))
  }

  /** `s.substring(0, n)` for n >= 0 */
  function Prefix(s: string, n: nat): (r: string)
    ensures |r| <= n && |r| <= |s|
    ensures r == s[..|r|]
    ensures |r| == n || |r| == |s|
  {
    if |s| <= n then s else s[..n]
  }

  /** `s.split(sep)` for a one-character separator. */
  function Split(s: string, sep: char): (parts: seq<string>)
    ensures |parts| >= 1
    ensures forall i :: 0 <= i < |parts| ==> sep !in parts[i]
    ensures forall i, j :: 0 <= i < |parts| && 0 <= j < |parts[i]| ==> parts[i][j] in s
    decreases |s|
  {
    if s == [] then [""]
    else
      var rest := Split(s[1..], sep);
      if s[0] == sep then [""] + rest
      else [[s[0]] + rest[0]] + rest[1..]
  }

  /** `parts.join(sep)` for a one-character separator. */
  function Join(parts: seq<string>, sep: char): string
    decreases |parts|
  {
    if |parts| == 0 then ""
    else if |parts| == 1 then parts[0]
    else parts[0] + [sep] + Join(parts[1..], sep)
  }

  lemma JoinTwo(a: string, b: string, sep: char)
    ensures Join([a, b], sep) == a + [sep] + b
  {
    assert [a, b][1..] == [b];
  }

  lemma JoinThree(a: string, b: string, c: string, sep: char)
    ensures Join([a, b, c], sep) == a + [sep] + b + [sep] + c
  {
    assert [a, b, c][1..] == [b, c];
    JoinTwo(b, c, sep);
  }

  lemma {:induction false} SplitNoSeparator(s: string, sep: char)
    requires sep !in s
    ensures Split(s, sep) == [s]
    decreases |s|
  {
    if s != [] {
      SplitNoSeparator(s[1..], sep);
      assert [s[0]] + s[1..] == s;
    }
  }

  lemma {:induction false} SplitAtSeparator(a: string, sep: char, b: string)
    requires sep !in a
    ensures Split(a + [sep] + b, sep) == [a] + Split(b, sep)
    decreases |a|
  {
    var s := a + [sep] + b;
    if a == [] {
      assert s[1..] == b;
    } else {
      assert s[1..] == a[1..] + [sep] + b;
      SplitAtSeparator(a[1..], sep, b);
      assert [a[0]] + a[1..] == a;
    }
  }

  /** `split` undoes `join` when no part contains the separator. */
  lemma {:induction false} SplitJoin(parts: seq<string>, sep: char)
    requires |parts| >= 1
    requires forall i :: 0 <= i < |parts| ==> sep !in parts[i]
    ensures Split(Join(parts, sep), sep) == parts
    decreases |parts|
  {
    if |parts| == 1 {
      SplitNoSeparator(parts[0], sep);
    } else {
      SplitJoin(parts[1..], sep);
      SplitAtSeparator(parts[0], sep, Join(parts[1..], sep));
      assert [parts[0]] + parts[1..] == parts;
    }
  }

  /** Drops the leading white space. */
  function TrimStart(s: string): (r: string)
    ensures |r| <= |s| && r == s[|s| - |r|..]
    ensures r == [] || !IsSpace(r[0])
    decreases |s|
  {
    if s != [] && IsSpace(s[0]) then TrimStart(s[1..]) else s
  }

  /** Drops the trailing white space. */
  function TrimEnd(s: string): (r: string)
    ensures |r| <= |s| && r == s[..|r|]
    ensures r == [] || !IsSpace(r[|r| - 1])
    decreases |s|
  {
    if s != [] && IsSpace(s[|s| - 1]) then TrimEnd(s[..|s| - 1]) else s
  }

  /** `trim` */
  function Trim(s: string): (r: string)
    ensures |r| <= |s|
    ensures r == [] || (!IsSpace(r[0]) && !IsSpace(r[|r| - 1]))
    ensures (forall i :: 0 <= i < |s| ==> !IsSpace(s[i])) ==> r == s
  {
    TrimEnd(TrimStart(s))
  }

  /** `ws.filter(w => w.length > n)` */
  function FilterLongerThan(ws: seq<string>, n: nat): (r: seq<string>)
    ensures |r| <= |ws|
    decreases |ws|
  {
    if ws == [] then []
    else (if |ws[0]| > n then [ws[0]] else []) + FilterLongerThan(ws[1..], n)
  }

  /** The filter keeps exactly the words longer than `n`. */
  lemma {:induction false} FilterMembers(ws: seq<string>, n: nat)
    ensures forall w :: w in FilterLongerThan(ws, n) <==> w in ws && |w| > n
    decreases |ws|
  {
    if ws != [] {
      FilterMembers(ws[1..], n);
      assert ws == [ws[0]] + ws[1..];
    }
  }

  /** The filter keeps a word list whose words are all long enough. */
  lemma {:induction false} FilterKeepsAll(ws: seq<string>, n: nat)
    requires forall i :: 0 <= i < |ws| ==> |ws[i]| > n
    ensures FilterLongerThan(ws, n) == ws
    decreases |ws|
  {
    if ws != [] {
      FilterKeepsAll(ws[1..], n);
      assert [ws[0]] + ws[1..] == ws;
    }
  }

  /** The filter works piece by piece, so it keeps the words in their order. */
  lemma {:induction false} FilterConcat(a: seq<string>, b: seq<string>, n: nat)
    ensures FilterLongerThan(a + b, n) == FilterLongerThan(a, n) + FilterLongerThan(b, n)
    decreases |a|
  {
    if a == [] {
      assert a + b == b;
    } else {
      FilterConcat(a[1..], b, n);
      assert (a + b)[0] == a[0];
      assert (a + b)[1..] == a[1..] + b;
    }
  }

  /** A header, environment variable or JSON field; a missing one reads as "". */
  function Get(m: map<string, string>, key: string): string {
    if key in m then m[key] else ""
  }

  /**
   * `a || b || … || last` over strings: the first non-empty candidate, or
   * `last` when every candidate is empty.
   */
  function FirstNonEmpty(candidates: seq<string>, last: string): (r: string)
    ensures (forall i :: 0 <= i < |candidates| ==> candidates[i] == "") ==> r == last
    ensures forall i :: 0 <= i < |candidates| && candidates[i] != "" ==>
      (forall j :: 0 <= j < i ==> candidates[j] == "") ==> r == candidates[i]
    ensures r == last || r in candidates
    ensures last != "" ==> r != ""
    decreases |candidates|
  {
    if candidates == [] then last
    else if candidates[0] != "" then candidates[0]
    else FirstNonEmpty(candidates[1..], last)
  }

  /**
   * Once one of the leading candidates is non-empty, what follows them, and
   * the last resort, no longer matter.
   */
  lemma {:induction false} FirstNonEmptyPrefix(candidates: seq<string>, rest: seq<string>, last: string, other: string)
    requires exists i :: 0 <= i < |candidates| && candidates[i] != ""
    ensures FirstNonEmpty(candidates + rest, last) == FirstNonEmpty(candidates, other)
    decreases |candidates|
  {
    if candidates[0] == "" {
      var i :| 0 <= i < |candidates| && candidates[i] != "";
      assert candidates[1..][i - 1] != "";
      assert (candidates + rest)[1..] == candidates[1..] + rest;
      FirstNonEmptyPrefix(candidates[1..], rest, last, other);
    }
  }

  /** A string that starts with a part includes it. */
  lemma StartsWithIncludes(s: string, part: string)
    requires StartsWith(s, part)
    ensures Includes(s, part)
  {
  }

  /** Every character of an included part occurs in the string. */
  lemma {:induction false} IncludedCharsOccur(s: string, part: string, k: nat)
    requires Includes(s, part) && k < |part|
    ensures part[k] in s
    decreases |s|
  {
    if StartsWith(s, part) {
      assert s[k] == part[k];
    } else {
      IncludedCharsOccur(s[1..], part, k);
      assert s[1..] == s[1..|s|];
    }
  }
}
