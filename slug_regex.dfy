/**
 * The regular-expression replacements that both slug generators chain,
 * each written out as a function over the string it rewrites.
 */
module SlugRegex {
  import opened Wrappers
  import opened JsText

  /** A non-empty run of `\w` characters: what `\b<word>\b` can match. */
  predicate IsWordText(w: string) {
    |w| > 0 && forall i :: 0 <= i < |w| ==> IsWordChar(w[i])
  }

  predicate AreWords(ws: seq<string>) {
    forall i :: 0 <= i < |ws| ==> IsWordText(ws[i])
  }

  /** Length of the run of `\w` characters at the start of `s`. */
  function WordRun(s: string): (k: nat)
    ensures k <= |s|
    ensures k < |s| ==> !IsWordChar(s[k])
    ensures |s| > 0 && IsWordChar(s[0]) ==> k > 0
    decreases |s|
  {
    if s == [] || !IsWordChar(s[0]) then 0 else 1 + WordRun(s[1..])
  }

  /** The text a match compares: lower-cased under the `i` flag, as it is otherwise. */
  function Fold(s: string, ignoreCase: bool): (r: string)
    ensures |r| == |s|
  {
    if ignoreCase then Lower(s) else s
  }

  function FoldAll(ws: seq<string>, ignoreCase: bool): (r: seq<string>)
    ensures |r| == |ws|
    ensures forall i :: 0 <= i < |ws| ==> r[i] == Fold(ws[i], ignoreCase)
  {
    seq(|ws|, i requires 0 <= i < |ws| => Fold(ws[i], ignoreCase))
  }

  /** `w\b` matches at the start of `s`. */
  predicate MatchesAt(s: string, w: string, ignoreCase: bool) {
    |w| <= |s| && Fold(s[..|w|], ignoreCase) == Fold(w, ignoreCase)
    && (|w| == |s| || !IsWordChar(s[|w|]))
  }

  /**
   * `(w1|w2|…)\b` at the start of `s`: the alternatives are tried in order and
   * the length of the first one that matches is the length of the match.
   */
  function MatchAt(s: string, ws: seq<string>, ignoreCase: bool): (r: Option<nat>)
    requires AreWords(ws)
    ensures r.Some? ==> 0 < r.value <= |s|
    decreases |ws|
  {
    if ws == [] then None
    else if MatchesAt(s, ws[0], ignoreCase) then Some(|ws[0]|)
    else MatchAt(s, ws[1..], ignoreCase)
  }

  /**
   * `s.replace(/\b(w1|w2|…)\b/g, '')`, with the `i` flag when `ignoreCase`:
   * a left-to-right scan that drops each occurrence of one of the words with
   * a word boundary on both sides. `afterWord` says whether the character
   * before `s` in the original string is a `\w` character.
   */
  function RemoveWholeWords(s: string, ws: seq<string>, ignoreCase: bool, afterWord: bool): string
    requires AreWords(ws)
    decreases |s|
  {
    if s == [] then []
    else if !afterWord && MatchAt(s, ws, ignoreCase).Some? then
      RemoveWholeWords(s[MatchAt(s, ws, ignoreCase).value..], ws, ignoreCase, true)
    else [s[0]] + RemoveWholeWords(s[1..], ws, ignoreCase, IsWordChar(s[0]))
  }

  /**
   * Removes every maximal run of `\w` characters whose folded form is one of
   * `ws`, and keeps every other character in place.
   */
  function RemoveWords(s: string, ws: seq<string>, ignoreCase: bool): (r: string)
    ensures |r| <= |s|
    decreases |s|
  {
    if s == [] then []
    else if !IsWordChar(s[0]) then [s[0]] + RemoveWords(s[1..], ws, ignoreCase)
    else
      var k := WordRun(s);
      (if Fold(s[..k], ignoreCase) in ws then [] else s[..k]) + RemoveWords(s[k..], ws, ignoreCase)
  }

  lemma {:induction false} RemoveNoWords(s: string, ignoreCase: bool)
    ensures RemoveWords(s, [], ignoreCase) == s
    decreases |s|
  {
    if s != [] {
      if !IsWordChar(s[0]) {
        RemoveNoWords(s[1..], ignoreCase);
        assert [s[0]] + s[1..] == s;
      } else {
        var k := WordRun(s);
        RemoveNoWords(s[k..], ignoreCase);
        assert s[..k] + s[k..] == s;
      }
    }
  }

  /** Slicing facts for a string split after its first character and at `k`. */
  lemma SplitAfterFirst(s: string, k: nat, rest: string)
    requires 1 <= k <= |s|
    ensures s[1..][..k - 1] == s[1..k] && s[1..][k - 1..] == s[k..]
    ensures [s[0]] + (s[1..k] + rest) == s[..k] + rest
  {
    assert [s[0]] + s[1..k] == s[..k];
  }

  /** Scanning inside a word never matches: the rest of the word is copied. */
  lemma {:induction false} InsideWordIsCopied(s: string, ws: seq<string>, ignoreCase: bool)
    requires AreWords(ws)
    ensures RemoveWholeWords(s, ws, ignoreCase, true)
         == s[..WordRun(s)] + RemoveWholeWords(s[WordRun(s)..], ws, ignoreCase, true)
    decreases |s|
  {
    var k := WordRun(s);
    if k > 0 {
      InsideWordIsCopied(s[1..], ws, ignoreCase);
      assert WordRun(s[1..]) == k - 1;
      SplitAfterFirst(s, k, RemoveWholeWords(s[k..], ws, ignoreCase, true));
    }
  }

  /** Folding keeps every character a `\w` character or not. */
  lemma FoldAt(s: string, ignoreCase: bool, i: nat)
    requires i < |s|
    ensures IsWordChar(Fold(s, ignoreCase)[i]) == IsWordChar(s[i])
  {
  }

  /** `\b<w>` cannot match at a non-word character. */
  lemma NoMatchAtNonWordChar(s: string, w: string, ignoreCase: bool)
    requires IsWordText(w)
    requires s != [] && !IsWordChar(s[0])
    ensures !MatchesAt(s, w, ignoreCase)
  {
    if |w| <= |s| {
      FoldAt(s[..|w|], ignoreCase, 0);
      FoldAt(w, ignoreCase, 0);
    }
  }

  lemma {:induction false} NoAlternativeAtNonWordChar(s: string, ws: seq<string>, ignoreCase: bool)
    requires AreWords(ws)
    requires s != [] && !IsWordChar(s[0])
    ensures MatchAt(s, ws, ignoreCase) == None
    decreases |ws|
  {
    if ws != [] {
      NoMatchAtNonWordChar(s, ws[0], ignoreCase);
      NoAlternativeAtNonWordChar(s, ws[1..], ignoreCase);
    }
  }

  /** At a non-word character the scan does not care what came before it. */
  lemma AtNonWordChar(s: string, ws: seq<string>, ignoreCase: bool)
    requires AreWords(ws)
    requires s == [] || !IsWordChar(s[0])
    ensures RemoveWholeWords(s, ws, ignoreCase, true) == RemoveWholeWords(s, ws, ignoreCase, false)
  {
    if s != [] {
      NoAlternativeAtNonWordChar(s, ws, ignoreCase);
    }
  }

  /** A match of `\b<w>\b` at the start of `s` is exactly the first word of `s`. */
  lemma MatchIsFirstWord(s: string, w: string, ignoreCase: bool)
    requires IsWordText(w)
    ensures MatchesAt(s, w, ignoreCase)
        <==> WordRun(s) > 0 && Fold(s[..WordRun(s)], ignoreCase) == Fold(w, ignoreCase)
  {
    var k := WordRun(s);
    if MatchesAt(s, w, ignoreCase) {
      forall i | 0 <= i < |w| ensures IsWordChar(s[i]) {
        FoldAt(s[..|w|], ignoreCase, i);
        FoldAt(w, ignoreCase, i);
      }
      WordRunOfWord(s, |w|);
    }
    if k > 0 && Fold(s[..k], ignoreCase) == Fold(w, ignoreCase) {
      assert |w| == k;
    }
  }

  /** The alternation matches exactly when the first word of `s` is one of the words. */
  lemma {:induction false} MatchAtIsFirstWord(s: string, ws: seq<string>, ignoreCase: bool)
    requires AreWords(ws)
    ensures MatchAt(s, ws, ignoreCase)
         == if WordRun(s) > 0 && Fold(s[..WordRun(s)], ignoreCase) in FoldAll(ws, ignoreCase)
            then Some(WordRun(s)) else None
    decreases |ws|
  {
    if ws != [] {
      MatchIsFirstWord(s, ws[0], ignoreCase);
      MatchAtIsFirstWord(s, ws[1..], ignoreCase);
      assert FoldAll(ws, ignoreCase) == [Fold(ws[0], ignoreCase)] + FoldAll(ws[1..], ignoreCase);
    }
  }

  /** Where no alternative matches, the scan copies one character. */
  lemma ScanCopiesUnmatched(s: string, ws: seq<string>, ignoreCase: bool)
    requires AreWords(ws)
    requires s != [] && MatchAt(s, ws, ignoreCase) == None
    ensures RemoveWholeWords(s, ws, ignoreCase, false)
         == [s[0]] + RemoveWholeWords(s[1..], ws, ignoreCase, IsWordChar(s[0]))
  {
  }

  /** From the first character of a word on, the scan copies the rest of the word. */
  lemma ScanWordTail(s: string, ws: seq<string>, ignoreCase: bool)
    requires AreWords(ws)
    requires s != [] && IsWordChar(s[0])
    ensures [s[0]] + RemoveWholeWords(s[1..], ws, ignoreCase, true)
         == s[..WordRun(s)] + RemoveWholeWords(s[WordRun(s)..], ws, ignoreCase, true)
  {
    var k := WordRun(s);
    InsideWordIsCopied(s[1..], ws, ignoreCase);
    assert WordRun(s[1..]) == k - 1;
    SplitAfterFirst(s, k, RemoveWholeWords(s[k..], ws, ignoreCase, true));
  }

  /** Where the first word of `s` is none of the words, the scan copies that word. */
  lemma ScanKeepsFirstWord(s: string, ws: seq<string>, ignoreCase: bool)
    requires AreWords(ws)
    requires s != [] && IsWordChar(s[0])
    requires MatchAt(s, ws, ignoreCase) == None
    ensures RemoveWholeWords(s, ws, ignoreCase, false)
         == s[..WordRun(s)] + RemoveWholeWords(s[WordRun(s)..], ws, ignoreCase, true)
  {
    ScanCopiesUnmatched(s, ws, ignoreCase);
    ScanWordTail(s, ws, ignoreCase);
  }

  /** The scan over a string that starts with a word, given the scan over what follows the word. */
  lemma ScanFirstWord(s: string, ws: seq<string>, ignoreCase: bool)
    requires AreWords(ws)
    requires s != [] && IsWordChar(s[0])
    requires RemoveWholeWords(s[WordRun(s)..], ws, ignoreCase, false)
          == RemoveWords(s[WordRun(s)..], FoldAll(ws, ignoreCase), ignoreCase)
    ensures RemoveWholeWords(s, ws, ignoreCase, false)
         == RemoveWords(s, FoldAll(ws, ignoreCase), ignoreCase)
  {
    var k := WordRun(s);
    MatchAtIsFirstWord(s, ws, ignoreCase);
    AtNonWordChar(s[k..], ws, ignoreCase);
    if Fold(s[..k], ignoreCase) in FoldAll(ws, ignoreCase) {
      assert RemoveWholeWords(s, ws, ignoreCase, false)
          == RemoveWholeWords(s[k..], ws, ignoreCase, true);
    } else {
      ScanKeepsFirstWord(s, ws, ignoreCase);
    }
  }

  /** The regular-expression scan removes exactly the whole words that fold to one of `ws`. */
  lemma {:induction false} RemoveWholeWordsRemovesWords(s: string, ws: seq<string>, ignoreCase: bool)
    requires AreWords(ws)
    ensures RemoveWholeWords(s, ws, ignoreCase, false)
         == RemoveWords(s, FoldAll(ws, ignoreCase), ignoreCase)
    decreases |s|
  {
    if s == [] {
    } else if !IsWordChar(s[0]) {
      NoAlternativeAtNonWordChar(s, ws, ignoreCase);
      RemoveWholeWordsRemovesWords(s[1..], ws, ignoreCase);
    } else {
      RemoveWholeWordsRemovesWords(s[WordRun(s)..], ws, ignoreCase);
      ScanFirstWord(s, ws, ignoreCase);
    }
  }

  /** `\b<w>\b` for a single word `w`. */
  lemma RemoveWholeWordRemovesWord(s: string, w: string, ignoreCase: bool)
    requires IsWordText(w)
    ensures AreWords([w])
    ensures RemoveWholeWords(s, [w], ignoreCase, false) == RemoveWords(s, [Fold(w, ignoreCase)], ignoreCase)
  {
    RemoveWholeWordsRemovesWords(s, [w], ignoreCase);
    assert FoldAll([w], ignoreCase) == [Fold(w, ignoreCase)];
  }

  /**
   * Removing the words of `ws` one regular expression at a time: after the
   * first `i` passes the words of the first `i` entries are gone, and the
   * next pass removes those of entry `i` as well.
   */
  lemma RemoveNextWord(s: string, cleanName: string, ws: seq<string>, i: nat, ignoreCase: bool)
    requires AreWords(ws) && i < |ws|
    requires cleanName == RemoveWords(s, FoldAll(ws, ignoreCase)[..i], ignoreCase)
    ensures AreWords([ws[i]])
    ensures RemoveWholeWords(cleanName, [ws[i]], ignoreCase, false)
         == RemoveWords(s, FoldAll(ws, ignoreCase)[..i + 1], ignoreCase)
  {
    var folded := FoldAll(ws, ignoreCase);
    RemoveWholeWordRemovesWord(cleanName, ws[i], ignoreCase);
    RemoveWordsThenOne(s, folded[..i], Fold(ws[i], ignoreCase), ignoreCase);
    assert folded[..i + 1] == folded[..i] + [folded[i]];
  }

  /** The first word of `s` is made of `\w` characters. */
  lemma {:induction false} WordRunIsWord(s: string)
    ensures forall i :: 0 <= i < WordRun(s) ==> IsWordChar(s[i])
    decreases |s|
  {
    if s != [] && IsWordChar(s[0]) {
      WordRunIsWord(s[1..]);
      assert forall i :: 1 <= i < WordRun(s) ==> s[i] == s[1..][i - 1];
    }
  }

  lemma {:induction false} WordRunOfWord(s: string, n: nat)
    requires n <= |s|
    requires forall i :: 0 <= i < n ==> IsWordChar(s[i])
    requires n == |s| || !IsWordChar(s[n])
    ensures WordRun(s) == n
    decreases n
  {
    if n > 0 {
      WordRunOfWord(s[1..], n - 1);
    }
  }

  /** A word followed by a boundary is removed or kept as one piece. */
  lemma WordThenRest(a: string, b: string, ws: seq<string>, ignoreCase: bool)
    requires IsWordText(a)
    requires b == [] || !IsWordChar(b[0])
    ensures RemoveWords(a + b, ws, ignoreCase)
         == (if Fold(a, ignoreCase) in ws then [] else a) + RemoveWords(b, ws, ignoreCase)
  {
    var s := a + b;
    WordRunOfWord(s, |a|);
    assert s[..|a|] == a;
    assert s[|a|..] == b;
  }

  /** A non-word character is kept, and the scan goes on after it. */
  lemma NonWordThenRest(c: char, b: string, ws: seq<string>, ignoreCase: bool)
    requires !IsWordChar(c)
    ensures RemoveWords([c] + b, ws, ignoreCase) == [c] + RemoveWords(b, ws, ignoreCase)
  {
    assert ([c] + b)[1..] == b;
  }

  /** `words` with every word that folds to one of `ws` replaced by "". */
  function KeepWords(words: seq<string>, ws: seq<string>, ignoreCase: bool): (r: seq<string>)
    ensures |r| == |words|
  {
    seq(|words|, i requires 0 <= i < |words| => if Fold(words[i], ignoreCase) in ws then "" else words[i])
  }

  /** Slicing facts for `a`, one separator and `b` in a row. */
  lemma SeparatorSlices(a: string, sep: char, b: string)
    ensures var s := a + [sep] + b;
      s[..|a|] == a && s[|a|..] == [sep] + b && ([sep] + b)[1..] == b
      && |s| > |a| && s[|a|] == sep && (forall i :: 0 <= i < |a| ==> s[i] == a[i])
  {
  }

  lemma ConsAssociates(x: string, c: char, y: string)
    ensures x + [c] + y == x + ([c] + y)
  {
  }

  /** A word and the separator after it, then the rest. */
  lemma WordSeparatorRest(a: string, sep: char, b: string, ws: seq<string>, ignoreCase: bool)
    requires IsWordText(a) && !IsWordChar(sep)
    ensures RemoveWords(a + [sep] + b, ws, ignoreCase)
         == (if Fold(a, ignoreCase) in ws then [] else a) + [sep] + RemoveWords(b, ws, ignoreCase)
  {
    SeparatorSlices(a, sep, b);
    WordRunOfWord(a + [sep] + b, |a|);
    ConsAssociates(if Fold(a, ignoreCase) in ws then [] else a, sep, RemoveWords(b, ws, ignoreCase));
  }

  /** On words joined by a non-word character, the removal acts word by word. */
  lemma {:induction false} RemoveWordsJoined(words: seq<string>, sep: char, ws: seq<string>, ignoreCase: bool)
    requires |words| >= 1 && AreWords(words) && !IsWordChar(sep)
    ensures RemoveWords(Join(words, sep), ws, ignoreCase) == Join(KeepWords(words, ws, ignoreCase), sep)
    decreases |words|
  {
    var kept := KeepWords(words, ws, ignoreCase);
    if |words| == 1 {
      WordThenRest(words[0], "", ws, ignoreCase);
      assert words[0] + "" == words[0];
    } else {
      var rest := words[1..];
      assert AreWords(rest);
      assert KeepWords(rest, ws, ignoreCase) == kept[1..];
      RemoveWordsJoined(rest, sep, ws, ignoreCase);
      WordSeparatorRest(words[0], sep, Join(rest, sep), ws, ignoreCase);
    }
  }

  /**
   * Removing the words of `ws` and then the word `v` is removing the words of
   * `ws + [v]` in one pass.
   */
  lemma {:induction false} RemoveWordsThenOne(s: string, ws: seq<string>, v: string, ignoreCase: bool)
    ensures RemoveWords(RemoveWords(s, ws, ignoreCase), [v], ignoreCase)
         == RemoveWords(s, ws + [v], ignoreCase)
    decreases |s|
  {
    if s == [] {
    } else if !IsWordChar(s[0]) {
      var rest := RemoveWords(s[1..], ws, ignoreCase);
      assert ([s[0]] + rest)[1..] == rest;
      RemoveWordsThenOne(s[1..], ws, v, ignoreCase);
    } else {
      var k := WordRun(s);
      var rest := RemoveWords(s[k..], ws, ignoreCase);
      RemoveWordsThenOne(s[k..], ws, v, ignoreCase);
      assert rest == [] || !IsWordChar(rest[0]) by {
        if k < |s| {
          assert rest == [s[k]] + RemoveWords(s[k..][1..], ws, ignoreCase);
        }
      }
      if Fold(s[..k], ignoreCase) in ws {
        assert RemoveWords(s, ws, ignoreCase) == rest;
      } else {
        assert RemoveWords(s, ws, ignoreCase) == s[..k] + rest;
        WordRunIsWord(s);
        WordThenRest(s[..k], rest, [v], ignoreCase);
      }
    }
  }

  /** `replace(/[^a-z0-9\s-]/g, '')` */
  function StripDisallowed(s: string): (r: string)
    ensures |r| <= |s|
    ensures forall i :: 0 <= i < |r| ==> IsLowerAlnum(r[i]) || IsSpace(r[i]) || r[i] == '-'
    decreases |s|
  {
    if s == [] then []
    else
      (if IsLowerAlnum(s[0]) || IsSpace(s[0]) || s[0] == '-' then [s[0]] else [])
      + StripDisallowed(s[1..])
  }

  /** `replace(/[^a-z0-9]/g, '')` */
  function KeepAlnum(s: string): (r: string)
    ensures |r| <= |s|
    ensures forall i :: 0 <= i < |r| ==> IsLowerAlnum(r[i])
    decreases |s|
  {
    if s == [] then []
    else (if IsLowerAlnum(s[0]) then [s[0]] else []) + KeepAlnum(s[1..])
  }

  /** Only `[a-z0-9]` and `-`. */
  predicate IsSlugText(s: string) {
    forall i :: 0 <= i < |s| ==> IsLowerAlnum(s[i]) || s[i] == '-'
  }

  predicate NoDoubleHyphen(s: string) {
    forall i :: 0 <= i < |s| - 1 ==> !(s[i] == '-' && s[i + 1] == '-')
  }

  /** A URL-safe slug: `[a-z0-9-]`, no hyphen at either end, no two hyphens in a row. */
  predicate IsCleanSlug(s: string) {
    IsSlugText(s) && NoDoubleHyphen(s) && (|s| > 0 ==> s[0] != '-' && s[|s| - 1] != '-')
  }

  /** `replace(/\s+/g, '-')`: every run of white space becomes one hyphen. */
  function HyphenateSpaces(s: string): (r: string)
    ensures |r| <= |s|
    ensures forall i :: 0 <= i < |r| ==> !IsSpace(r[i])
    ensures (forall i :: 0 <= i < |s| ==> IsLowerAlnum(s[i]) || IsSpace(s[i]) || s[i] == '-')
            ==> IsSlugText(r)
    decreases |s|
  {
    if s == [] then []
    else if IsSpace(s[0]) then
      (if |s| > 1 && IsSpace(s[1]) then [] else "-") + HyphenateSpaces(s[1..])
    else [s[0]] + HyphenateSpaces(s[1..])
  }

  /** `replace(/-+/g, '-')`: every run of hyphens becomes one hyphen. */
  function CollapseHyphens(s: string): (r: string)
    ensures |r| <= |s|
    ensures |r| == 0 <==> |s| == 0
    ensures |s| > 0 ==> r[0] == s[0] && r[|r| - 1] == s[|s| - 1]
    ensures forall i :: 0 <= i < |r| ==> r[i] in s
    ensures NoDoubleHyphen(r)
    decreases |s|
  {
    if |s| <= 1 then s
    else if s[0] == '-' && s[1] == '-' then CollapseHyphens(s[1..])
    else [s[0]] + CollapseHyphens(s[1..])
  }

  /** `replace(/^-+/, '')` */
  function DropLeadingHyphens(s: string): (r: string)
    ensures |r| <= |s| && r == s[|s| - |r|..]
    ensures r == [] || r[0] != '-'
    decreases |s|
  {
    if s != [] && s[0] == '-' then DropLeadingHyphens(s[1..]) else s
  }

  /** `replace(/-+$/, '')` */
  function DropTrailingHyphens(s: string): (r: string)
    ensures |r| <= |s| && r == s[..|r|]
    ensures r == [] || r[|r| - 1] != '-'
    decreases |s|
  {
    if s != [] && s[|s| - 1] == '-' then DropTrailingHyphens(s[..|s| - 1]) else s
  }

  /** `replace(/^-+|-+$/g, '')` */
  function TrimHyphens(s: string): (r: string)
    ensures |r| <= |s|
    ensures IsSlugText(s) && NoDoubleHyphen(s) ==> IsCleanSlug(r)
  {
    var t := DropLeadingHyphens(s);
    var r := DropTrailingHyphens(t);
    assert r == s[|s| - |t|..][..|r|];
    r
  }

  /** `replace(/^-|-$/g, '')`: one hyphen off each end. */
  function TrimOneHyphen(s: string): (r: string)
    ensures |r| <= |s|
    ensures IsSlugText(s) && NoDoubleHyphen(s) ==> IsCleanSlug(r)
  {
    var t := if |s| > 0 && s[0] == '-' then s[1..] else s;
    if |t| > 0 && t[|t| - 1] == '-' then t[..|t| - 1] else t
  }

  /** A string of allowed characters passes the filter unchanged. */
  lemma {:induction false} StripDisallowedKeepsAllowed(s: string)
    requires forall i :: 0 <= i < |s| ==> IsLowerAlnum(s[i]) || IsSpace(s[i]) || s[i] == '-'
    ensures StripDisallowed(s) == s
    decreases |s|
  {
    if s != [] {
      StripDisallowedKeepsAllowed(s[1..]);
      assert [s[0]] + s[1..] == s;
    }
  }

  /** A string with no allowed character is emptied by the filter. */
  lemma {:induction false} StripDisallowedDropsAll(s: string)
    requires forall i :: 0 <= i < |s| ==> !(IsLowerAlnum(s[i]) || IsSpace(s[i]) || s[i] == '-')
    ensures StripDisallowed(s) == []
    decreases |s|
  {
    if s != [] {
      StripDisallowedDropsAll(s[1..]);
    }
  }

  /** Without white space there is nothing to hyphenate. */
  lemma {:induction false} HyphenateNoSpaces(s: string)
    requires forall i :: 0 <= i < |s| ==> !IsSpace(s[i])
    ensures HyphenateSpaces(s) == s
    decreases |s|
  {
    if s != [] {
      HyphenateNoSpaces(s[1..]);
      assert [s[0]] + s[1..] == s;
    }
  }

  /** Single spaces between words become single hyphens. */
  lemma {:induction false} HyphenateJoined(words: seq<string>)
    requires |words| >= 1
    requires forall i :: 0 <= i < |words| ==> forall j :: 0 <= j < |words[i]| ==> !IsSpace(words[i][j])
    requires forall i :: 0 <= i < |words| - 1 ==> |words[i]| > 0
    ensures HyphenateSpaces(Join(words, ' ')) == Join(words, '-')
    decreases |words|
  {
    if |words| == 1 {
      HyphenateNoSpaces(words[0]);
    } else {
      HyphenateJoined(words[1..]);
      HyphenateWordThenSpace(words[0], Join(words[1..], ' '));
    }
  }

  /** Slicing facts for `a`, a character `c` and `b` in a row, with `a` non-empty. */
  lemma ConsSlices(a: string, c: char, b: string, d: char, x: string)
    requires a != []
    ensures (a + [c] + b)[0] == a[0] && (a + [c] + b)[1..] == a[1..] + [c] + b
    ensures [a[0]] + (a[1..] + [d] + x) == a + [d] + x
  {
  }

  /** A word without white space, one space, then the rest. */
  lemma {:induction false} HyphenateWordThenSpace(a: string, b: string)
    requires forall j :: 0 <= j < |a| ==> !IsSpace(a[j])
    requires b == [] || !IsSpace(b[0])
    ensures HyphenateSpaces(a + [' '] + b) == a + ['-'] + HyphenateSpaces(b)
    decreases |a|
  {
    if a == [] {
      assert a + [' '] + b == [' '] + b;
      assert ([' '] + b)[1..] == b;
    } else {
      ConsSlices(a, ' ', b, '-', HyphenateSpaces(b));
      HyphenateWordThenSpace(a[1..], b);
    }
  }

  /** A string without doubled hyphens is left alone by the collapse. */
  lemma {:induction false} CollapseKeepsSingleHyphens(s: string)
    requires NoDoubleHyphen(s)
    ensures CollapseHyphens(s) == s
    decreases |s|
  {
    if |s| > 1 {
      assert !(s[0] == '-' && s[1] == '-');
      assert NoDoubleHyphen(s[1..]) by {
        forall i | 0 <= i < |s| - 2 ensures !(s[1..][i] == '-' && s[1..][i + 1] == '-') {
          assert s[1..][i] == s[i + 1] && s[1..][i + 1] == s[i + 2];
        }
      }
      CollapseKeepsSingleHyphens(s[1..]);
      assert [s[0]] + s[1..] == s;
    }
  }

  /** A clean slug is left alone by both hyphen trims. */
  lemma CleanSlugIsTrimmed(s: string)
    requires IsCleanSlug(s)
    ensures TrimHyphens(s) == s && TrimOneHyphen(s) == s
  {
  }

  /** Nothing but white space. */
  predicate AllSpace(w: string) {
    forall i :: 0 <= i < |w| ==> IsSpace(w[i])
  }

  /** Nothing but hyphens. */
  predicate AllHyphens(h: string) {
    forall i :: 0 <= i < |h| ==> h[i] == '-'
  }

  /** A run of white space followed by anything but white space becomes one hyphen. */
  lemma {:induction false} HyphenateSpaceRun(w: string, b: string)
    requires |w| > 0 && AllSpace(w)
    requires b == [] || !IsSpace(b[0])
    ensures HyphenateSpaces(w + b) == "-" + HyphenateSpaces(b)
    decreases |w|
  {
    assert (w + b)[1..] == w[1..] + b;
    if |w| > 1 {
      HyphenateSpaceRun(w[1..], b);
    }
  }

  /** Hyphenation works piece by piece when the first piece does not end in white space. */
  lemma {:induction false} HyphenateConcat(a: string, x: string)
    requires a == [] || !IsSpace(a[|a| - 1])
    ensures HyphenateSpaces(a + x) == HyphenateSpaces(a) + HyphenateSpaces(x)
    decreases |a|
  {
    if a != [] {
      var s := a + x;
      assert s[0] == a[0] && s[1..] == a[1..] + x;
      assert a[1..] == [] || a[1..][|a[1..]| - 1] == a[|a| - 1];
      HyphenateConcat(a[1..], x);
      if IsSpace(a[0]) {
        assert |a| > 1 && s[1] == a[1];
        var sep: string := if IsSpace(a[1]) then [] else "-";
        assert HyphenateSpaces(s) == sep + HyphenateSpaces(a[1..] + x);
        assert HyphenateSpaces(a) == sep + HyphenateSpaces(a[1..]);
      } else {
        assert HyphenateSpaces(s) == [a[0]] + HyphenateSpaces(a[1..] + x);
        assert HyphenateSpaces(a) == [a[0]] + HyphenateSpaces(a[1..]);
      }
    } else {
      assert a + x == x;
    }
  }

  /**
   * `replace(/\s+/g, '-')` on a maximal run of white space: the run, however
   * long, becomes exactly one hyphen, and the text on either side is
   * hyphenated on its own.
   */
  lemma HyphenateRun(a: string, w: string, b: string)
    requires a == [] || !IsSpace(a[|a| - 1])
    requires |w| > 0 && AllSpace(w)
    requires b == [] || !IsSpace(b[0])
    ensures HyphenateSpaces(a + w + b) == HyphenateSpaces(a) + "-" + HyphenateSpaces(b)
  {
    var rest := w + b;
    assert HyphenateSpaces(rest) == "-" + HyphenateSpaces(b) by {
      HyphenateSpaceRun(w, b);
    }
    assert HyphenateSpaces(a + rest) == HyphenateSpaces(a) + HyphenateSpaces(rest) by {
      HyphenateConcat(a, rest);
    }
    assert a + w + b == a + rest;
  }

  /** Two alphanumeric words with a run of white space between them become the words joined by one hyphen. */
  lemma HyphenateSpacedWords(a: string, w: string, b: string)
    requires AreAlnumWords([a, b]) && |w| > 0 && AllSpace(w)
    ensures HyphenateSpaces(a + w + b) == Join([a, b], '-')
  {
    assert [a, b][0] == a && [a, b][1] == b;
    assert |a| > 0 && |b| > 0;
    assert HyphenateSpaces(a) == a by {
      assert forall j :: 0 <= j < |a| ==> IsLowerAlnum(a[j]);
      HyphenateNoSpaces(a);
    }
    assert HyphenateSpaces(b) == b by {
      assert forall j :: 0 <= j < |b| ==> IsLowerAlnum(b[j]);
      HyphenateNoSpaces(b);
    }
    assert HyphenateSpaces(a + w + b) == HyphenateSpaces(a) + "-" + HyphenateSpaces(b) by {
      assert IsLowerAlnum(a[|a| - 1]) && IsLowerAlnum(b[0]);
      HyphenateRun(a, w, b);
    }
    JoinTwo(a, b, '-');
  }

  /** A run of hyphens followed by anything but a hyphen becomes one hyphen. */
  lemma {:induction false} CollapseHyphenRun(h: string, b: string)
    requires |h| > 0 && AllHyphens(h)
    requires b == [] || b[0] != '-'
    ensures CollapseHyphens(h + b) == "-" + CollapseHyphens(b)
    decreases |h|
  {
    assert (h + b)[1..] == h[1..] + b;
    if |h| > 1 {
      CollapseHyphenRun(h[1..], b);
    }
  }

  /** A character other than a hyphen is kept, and the collapse goes on after it. */
  lemma CollapseAfterNonHyphen(c: char, x: string)
    requires c != '-'
    ensures CollapseHyphens([c] + x) == [c] + CollapseHyphens(x)
  {
    var s := [c] + x;
    assert s[0] == c && s[1..] == x;
    if x == [] {
      assert s == [c];
    }
  }

  lemma ConcatAssociates(x: string, y: string, z: string)
    ensures x + y + z == x + (y + z)
  {
  }

  /** The collapse works piece by piece when the first piece does not end in a hyphen. */
  lemma {:induction false} CollapseConcat(a: string, x: string)
    requires a == [] || a[|a| - 1] != '-'
    ensures CollapseHyphens(a + x) == CollapseHyphens(a) + CollapseHyphens(x)
    decreases |a|
  {
    if a == [] {
      assert a + x == x;
    } else if |a| == 1 {
      assert a + x == [a[0]] + x;
      CollapseAfterNonHyphen(a[0], x);
    } else {
      var s := a + x;
      assert s[0] == a[0] && s[1] == a[1] && s[1..] == a[1..] + x;
      assert CollapseHyphens(a[1..] + x) == CollapseHyphens(a[1..]) + CollapseHyphens(x) by {
        assert a[1..][|a[1..]| - 1] == a[|a| - 1];
        CollapseConcat(a[1..], x);
      }
      if a[0] == '-' && a[1] == '-' {
        assert CollapseHyphens(s) == CollapseHyphens(a[1..] + x);
        assert CollapseHyphens(a) == CollapseHyphens(a[1..]);
      } else {
        assert CollapseHyphens(s) == [a[0]] + CollapseHyphens(a[1..] + x);
        assert CollapseHyphens(a) == [a[0]] + CollapseHyphens(a[1..]);
        ConcatAssociates([a[0]], CollapseHyphens(a[1..]), CollapseHyphens(x));
      }
    }
  }


  /**
   * `replace(/-+/g, '-')` on a maximal run of hyphens: the run, however long,
   * becomes exactly one hyphen, and the text on either side is collapsed on
   * its own.
   */
  lemma CollapseRun(a: string, h: string, b: string)
    requires a == [] || a[|a| - 1] != '-'
    requires |h| > 0 && AllHyphens(h)
    requires b == [] || b[0] != '-'
    ensures CollapseHyphens(a + h + b) == CollapseHyphens(a) + "-" + CollapseHyphens(b)
  {
    var rest := h + b;
    assert CollapseHyphens(rest) == "-" + CollapseHyphens(b) by {
      CollapseHyphenRun(h, b);
    }
    assert CollapseHyphens(a + rest) == CollapseHyphens(a) + CollapseHyphens(rest) by {
      CollapseConcat(a, rest);
    }
    assert a + h + b == a + rest;
    ConcatAssociates(CollapseHyphens(a), "-", CollapseHyphens(b));
  }

  /** A run of white space is copied by the word removal, which goes on after it. */
  lemma {:induction false} SpaceRunThenRest(w: string, b: string, ws: seq<string>, ignoreCase: bool)
    requires AllSpace(w)
    ensures RemoveWords(w + b, ws, ignoreCase) == w + RemoveWords(b, ws, ignoreCase)
    decreases |w|
  {
    if w == [] {
      assert w + b == b;
    } else {
      assert w + b == [w[0]] + (w[1..] + b);
      assert AllSpace(w[1..]) by {
        forall i | 0 <= i < |w[1..]| ensures IsSpace(w[1..][i]) {
          assert w[1..][i] == w[i + 1];
        }
      }
      NonWordThenRest(w[0], w[1..] + b, ws, ignoreCase);
      SpaceRunThenRest(w[1..], b, ws, ignoreCase);
      assert [w[0]] + (w[1..] + RemoveWords(b, ws, ignoreCase)) == w + RemoveWords(b, ws, ignoreCase);
    }
  }

  /** Two words that are not in `ws`, with white space between them, are both kept. */
  lemma KeepsSpacedWords(a: string, w: string, b: string, ws: seq<string>, ignoreCase: bool)
    requires IsWordText(a) && IsWordText(b) && |w| > 0 && AllSpace(w)
    requires Fold(a, ignoreCase) !in ws && Fold(b, ignoreCase) !in ws
    ensures RemoveWords(a + w + b, ws, ignoreCase) == a + w + b
  {
    var rest := w + b;
    assert RemoveWords(rest, ws, ignoreCase) == rest by {
      SpaceRunThenRest(w, b, ws, ignoreCase);
      WordThenRest(b, [], ws, ignoreCase);
      assert b + [] == b;
    }
    assert RemoveWords(a + rest, ws, ignoreCase) == a + RemoveWords(rest, ws, ignoreCase) by {
      assert rest[0] == w[0];
      WordThenRest(a, rest, ws, ignoreCase);
    }
    assert a + w + b == a + rest;
  }

  lemma {:induction false} DropLeadingRun(h: string, x: string)
    requires AllHyphens(h)
    ensures DropLeadingHyphens(h + x) == DropLeadingHyphens(x)
    decreases |h|
  {
    if h != [] {
      assert (h + x)[0] == h[0] == '-';
      assert (h + x)[1..] == h[1..] + x;
      assert AllHyphens(h[1..]) by {
        forall i | 0 <= i < |h[1..]| ensures h[1..][i] == '-' {
          assert h[1..][i] == h[i + 1];
        }
      }
      DropLeadingRun(h[1..], x);
    } else {
      assert h + x == x;
    }
  }

  lemma {:induction false} DropTrailingRun(x: string, h: string)
    requires AllHyphens(h)
    ensures DropTrailingHyphens(x + h) == DropTrailingHyphens(x)
    decreases |h|
  {
    if h != [] {
      assert (x + h)[|x + h| - 1] == h[|h| - 1] == '-';
      assert (x + h)[..|x + h| - 1] == x + h[..|h| - 1];
      DropTrailingRun(x, h[..|h| - 1]);
    } else {
      assert x + h == x;
    }
  }

  /**
   * `replace(/^-+|-+$/g, '')` removes the whole hyphen run at each end and
   * keeps everything between them.
   */
  lemma TrimHyphensKeepsMiddle(h: string, m: string, h2: string)
    requires AllHyphens(h) && AllHyphens(h2)
    requires m == [] || (m[0] != '-' && m[|m| - 1] != '-')
    ensures TrimHyphens(h + m + h2) == m
  {
    assert h + m + h2 == h + (m + h2);
    DropLeadingRun(h, m + h2);
    if m == [] {
      assert m + h2 == h2 + [];
      DropLeadingRun(h2, []);
    } else {
      DropTrailingRun(m, h2);
    }
  }

  /**
   * `replace(/^-|-$/g, '')` removes exactly one hyphen at each end that has
   * one, and keeps everything else, hyphens included.
   */
  lemma TrimOneHyphenKeepsMiddle(m: string, front: bool, back: bool)
    requires !front ==> m == [] || m[0] != '-'
    requires !back ==> m == [] || m[|m| - 1] != '-'
    ensures TrimOneHyphen((if front then "-" else "") + m + (if back then "-" else "")) == m
  {
    var tail: string := if back then "-" else "";
    var s := (if front then "-" else "") + m + tail;
    if front {
      assert s[0] == '-' && s[1..] == m + tail;
    } else if m != [] {
      assert s == m + tail && s[0] == m[0];
    }
    if (front || m != []) && back {
      assert (m + tail)[|m|] == '-' && (m + tail)[..|m|] == m;
    }
  }

  /** Words made of `[a-z0-9]` only, none of them empty. */
  predicate AreAlnumWords(ws: seq<string>) {
    forall i :: 0 <= i < |ws| ==> |ws[i]| > 0 && forall j :: 0 <= j < |ws[i]| ==> IsLowerAlnum(ws[i][j])
  }

  /** Joining non-empty alphanumeric words with hyphens gives a clean slug. */
  lemma {:induction false} JoinIsClean(ws: seq<string>)
    requires AreAlnumWords(ws)
    ensures IsCleanSlug(Join(ws, '-'))
    ensures |ws| > 0 ==> |Join(ws, '-')| > 0 && Join(ws, '-')[0] == ws[0][0]
    decreases |ws|
  {
    if |ws| > 1 {
      var rest := Join(ws[1..], '-');
      JoinIsClean(ws[1..]);
      var s := ws[0] + "-" + rest;
      assert Join(ws, '-') == s;
      var n := |ws[0]|;
      assert forall i :: 0 <= i < n ==> s[i] == ws[0][i];
      assert s[n] == '-';
      assert forall i :: n < i < |s| ==> s[i] == rest[i - n - 1];
      forall i | 0 <= i < |s| - 1 ensures !(s[i] == '-' && s[i + 1] == '-') {
        if i < n {
          assert s[i] == ws[0][i];
        } else if i == n {
          assert s[i + 1] == rest[0];
        } else {
          assert s[i] == rest[i - n - 1] && s[i + 1] == rest[i - n];
        }
      }
    }
  }

  /** Alphanumeric words joined by `sep` hold only alphanumerics and `sep`. */
  lemma {:induction false} JoinedChars(ws: seq<string>, sep: char)
    requires AreAlnumWords(ws)
    ensures forall i :: 0 <= i < |Join(ws, sep)| ==> IsLowerAlnum(Join(ws, sep)[i]) || Join(ws, sep)[i] == sep
    decreases |ws|
  {
    if |ws| > 1 {
      var rest := Join(ws[1..], sep);
      JoinedChars(ws[1..], sep);
      var s := ws[0] + [sep] + rest;
      assert Join(ws, sep) == s;
      var n := |ws[0]|;
      forall i | 0 <= i < |s| ensures IsLowerAlnum(s[i]) || s[i] == sep {
        if i < n {
          assert s[i] == ws[0][i];
        } else if i > n {
          assert s[i] == rest[i - n - 1];
        }
      }
    }
  }

  /** An empty last word leaves a separator at the end. */
  lemma {:induction false} JoinAppendEmpty(ws: seq<string>, sep: char)
    requires |ws| >= 1
    ensures Join(ws + [""], sep) == Join(ws, sep) + [sep]
    decreases |ws|
  {
    var parts := ws + [""];
    if |ws| == 1 {
      assert parts[1..] == [""];
      assert Join(parts, sep) == ws[0] + [sep] + "";
    } else {
      assert parts[1..] == ws[1..] + [""];
      JoinAppendEmpty(ws[1..], sep);
      assert Join(parts, sep) == ws[0] + [sep] + (Join(ws[1..], sep) + [sep]);
    }
  }

  /** One hyphen after a clean slug adds no doubled hyphen. */
  lemma HyphenAfterClean(s: string)
    requires IsCleanSlug(s) && |s| > 0
    ensures IsSlugText(s + "-") && NoDoubleHyphen(s + "-")
  {
    var t := s + "-";
    forall i | 0 <= i < |t| - 1 ensures !(t[i] == '-' && t[i + 1] == '-') {
      assert t[i] == s[i];
      if i < |s| - 1 {
        assert t[i + 1] == s[i + 1];
      }
    }
  }

  /**
   * Alphanumeric words separated by single spaces or single hyphens come out
   * of the hyphenation and the collapse joined by single hyphens; an empty
   * last word leaves one hyphen at the end.
   */
  lemma HyphenatedWords(ws: seq<string>, sep: char, trailing: bool)
    requires AreAlnumWords(ws) && |ws| >= 1 && (sep == ' ' || sep == '-')
    ensures var parts := if trailing then ws + [""] else ws;
      CollapseHyphens(HyphenateSpaces(Join(parts, sep))) == Join(parts, '-')
  {
    var parts := if trailing then ws + [""] else ws;
    var j := Join(ws, '-');
    JoinIsClean(ws);
    JoinedChars(ws, '-');
    if trailing {
      JoinAppendEmpty(ws, '-');
      HyphenAfterClean(j);
      assert Join(parts, '-') == j + "-";
    }
    if sep == '-' {
      assert forall i :: 0 <= i < |Join(parts, '-')| ==> !IsSpace(Join(parts, '-')[i]);
      HyphenateNoSpaces(Join(parts, '-'));
    } else {
      HyphenateJoined(parts);
    }
    CollapseKeepsSingleHyphens(Join(parts, '-'));
  }

  /** The filter works character by character. */
  lemma {:induction false} StripDisallowedConcat(a: string, b: string)
    ensures StripDisallowed(a + b) == StripDisallowed(a) + StripDisallowed(b)
    decreases |a|
  {
    if a == [] {
      assert a + b == b;
    } else {
      StripDisallowedConcat(a[1..], b);
      assert (a + b)[0] == a[0];
      assert (a + b)[1..] == a[1..] + b;
    }
  }

  /** Not one `[a-z0-9]` character. */
  predicate NoAlnum(s: string) {
    forall i :: 0 <= i < |s| ==> !IsLowerAlnum(s[i])
  }

  /** Not one ASCII letter or digit, in either case. */
  predicate NoLetterOrDigit(s: string) {
    forall i :: 0 <= i < |s| ==> !IsLowerAlnum(LowerChar(s[i]))
  }

  /** Removing words brings in no letter and no digit. */
  lemma {:induction false} RemoveWordsNoLetterOrDigit(s: string, ws: seq<string>, ignoreCase: bool)
    requires NoLetterOrDigit(s)
    ensures NoLetterOrDigit(RemoveWords(s, ws, ignoreCase))
    decreases |s|
  {
    if s != [] {
      if !IsWordChar(s[0]) {
        RemoveWordsNoLetterOrDigit(s[1..], ws, ignoreCase);
      } else {
        var k := WordRun(s);
        RemoveWordsNoLetterOrDigit(s[k..], ws, ignoreCase);
      }
    }
  }

  lemma {:induction false} StripDisallowedNoAlnum(s: string)
    requires NoAlnum(s)
    ensures NoAlnum(StripDisallowed(s))
    decreases |s|
  {
    if s != [] {
      StripDisallowedNoAlnum(s[1..]);
    }
  }

  lemma {:induction false} HyphenateNoAlnum(s: string)
    requires NoAlnum(s)
    ensures NoAlnum(HyphenateSpaces(s))
    decreases |s|
  {
    if s != [] {
      HyphenateNoAlnum(s[1..]);
    }
  }

  lemma CollapseNoAlnum(s: string)
    requires NoAlnum(s)
    ensures NoAlnum(CollapseHyphens(s))
  {
    var r := CollapseHyphens(s);
    forall i | 0 <= i < |r| ensures !IsLowerAlnum(r[i]) {
      assert r[i] in s;
    }
  }

  lemma TrimNoAlnum(s: string)
    requires NoAlnum(s)
    ensures NoAlnum(Trim(s)) && NoAlnum(TrimHyphens(s))
  {
    var t := TrimStart(s);
    assert NoAlnum(t);
    var d := DropLeadingHyphens(s);
    assert NoAlnum(d);
  }

  /** A clean slug without a letter or digit is empty: it would be all hyphens. */
  lemma NoAlnumCleanIsEmpty(s: string)
    requires IsCleanSlug(s) && NoAlnum(s)
    ensures s == []
  {
  }

  /**
   * Hyphen-joined alphanumeric words have no white space to trim, and the
   * hyphen trim takes off only the hyphen an empty last word leaves.
   */
  lemma TrimmedWords(ws: seq<string>, trailing: bool)
    requires AreAlnumWords(ws) && |ws| >= 1
    ensures var c := Join(if trailing then ws + [""] else ws, '-');
      Trim(c) == c && TrimHyphens(c) == Join(ws, '-')
  {
    var j := Join(ws, '-');
    var c := Join(if trailing then ws + [""] else ws, '-');
    JoinIsClean(ws);
    if trailing {
      JoinAppendEmpty(ws, '-');
      assert c == j + "-";
      assert c[..|c| - 1] == j;
      assert DropLeadingHyphens(c) == c;
      assert DropTrailingHyphens(c) == j;
    } else {
      CleanSlugIsTrimmed(j);
    }
    assert forall i :: 0 <= i < |c| ==> !IsSpace(c[i]);
  }
}
