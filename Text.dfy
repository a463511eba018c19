/** The handful of Python `str` operations the pipeline relies on:
    `strip()`, `split(sep)`, `split()`, `" ".join`, `replace`, `str(int)`
    and `float(str)`, stated over `seq<char>`. */
module Text {
  import opened Wrappers

  /** Python's `str.isspace()` for one character: the Unicode characters
      whose bidirectional class is WS, B or S, or whose category is Zs. */
  predicate IsSpace(c: char)
  {
    ('\t' <= c <= '\r') || ('\U{001C}' <= c <= '\U{001F}') || c == ' '
    || c == '\U{0085}' || c == '\U{00A0}' || c == '\U{1680}'
    || ('\U{2000}' <= c <= '\U{200A}') || c == '\U{2028}' || c == '\U{2029}'
    || c == '\U{202F}' || c == '\U{205F}' || c == '\U{3000}'
  }

  predicate AllSpace(s: string) { forall i :: 0 <= i < |s| ==> IsSpace(s[i]) }

  /** The number of whitespace characters `s` starts with. */
  function LeadEnd(s: string): (i: nat)
    ensures i <= |s|
    ensures forall k :: 0 <= k < i ==> IsSpace(s[k])
    ensures i < |s| ==> !IsSpace(s[i])
  {
    if |s| == 0 || !IsSpace(s[0]) then 0 else 1 + LeadEnd(s[1..])
  }

  /** Where the whitespace `s` ends with begins. */
  function TrailStart(s: string): (j: nat)
    ensures j <= |s|
    ensures forall k :: j <= k < |s| ==> IsSpace(s[k])
    ensures j > 0 ==> !IsSpace(s[j - 1])
  {
    if |s| == 0 || !IsSpace(s[|s| - 1]) then |s| else TrailStart(s[..|s| - 1])
  }

  /** `s.strip()`: the part of `s` between its leading and its trailing
      whitespace; that part neither starts nor ends with whitespace. */
  function Strip(s: string): (r: string)
    ensures exists i, j :: 0 <= i <= j <= |s| && r == s[i..j] && AllSpace(s[..i]) && AllSpace(s[j..])
    ensures r == [] || (!IsSpace(r[0]) && !IsSpace(r[|r| - 1]))
  {
    var i := LeadEnd(s);
    var j := i + TrailStart(s[i..]);
    assert AllSpace(s[..i]) && AllSpace(s[j..]);
    s[i..j]
  }

  /** A string with no whitespace at either end is its own `strip()`. */
  lemma StripUnchanged(s: string)
    requires s == [] || (!IsSpace(s[0]) && !IsSpace(s[|s| - 1]))
    ensures Strip(s) == s
  {
    assert LeadEnd(s) == 0;
    assert TrailStart(s) == |s|;
    assert s[0..|s|] == s;
  }

  lemma StripIdempotent(s: string)
    ensures Strip(Strip(s)) == Strip(s)
  {
    StripUnchanged(Strip(s));
  }

  /** Index of the first `c` in `s`, or `|s|` when there is none. */
  function IndexOf(s: string, c: char): (i: nat)
    ensures i <= |s| && c !in s[..i]
    ensures i < |s| <==> c in s
    ensures i < |s| ==> s[i] == c
  {
    if |s| == 0 then 0 else if s[0] == c then 0 else 1 + IndexOf(s[1..], c)
  }

  /** `IndexOf` finds the first occurrence. */
  lemma IndexOfFirst(s: string, c: char, k: nat)
    requires k < |s| && s[k] == c && c !in s[..k]
    ensures IndexOf(s, c) == k
  {
    assert s[..k + 1][k] == c;
  }

  /** Joins `parts` with the separator `sep` between them (`sep.join(parts)`). */
  function Join(parts: seq<string>, sep: string): string
  {
    if |parts| == 0 then "" else if |parts| == 1 then parts[0]
    else parts[0] + sep + Join(parts[1..], sep)
  }

  /** `s.split(c)` for a one-character separator: the parts contain no
      `c`, and joining them with `c` gives back `s`. */
  function Split(s: string, c: char): (parts: seq<string>)
    ensures |parts| >= 1
    ensures forall k :: 0 <= k < |parts| ==> c !in parts[k]
    ensures Join(parts, [c]) == s
    decreases |s|
  {
    var i := IndexOf(s, c);
    if i == |s| then [s]
    else
      var rest := Split(s[i + 1..], c);
      assert s == s[..i] + [c] + s[i + 1..];
      [s[..i]] + rest
  }

  lemma {:induction false} SplitWithout(s: string, c: char)
    requires c !in s
    ensures Split(s, c) == [s]
  {
  }

  /** The first part of the split is everything before the first `c`. */
  lemma {:induction false} SplitHead(s: string, c: char)
    ensures Split(s, c)[0] == s[..IndexOf(s, c)]
  {
  }

  /** The second part of the split, when there is one, starts right after the first `c`. */
  lemma {:induction false} SplitSecond(s: string, c: char)
    requires c in s
    ensures |Split(s, c)| >= 2
    ensures Split(s, c)[1] == Split(s[IndexOf(s, c) + 1..], c)[0]
  {
  }

  /** Searching past a prefix free of `c` skips the prefix. */
  lemma {:induction false} IndexOfAppend(x: string, rest: string, c: char)
    requires c !in x
    ensures IndexOf(x + rest, c) == |x| + IndexOf(rest, c)
  {
    if |x| > 0 {
      assert (x + rest)[1..] == x[1..] + rest;
      assert c !in x[1..] by { assert forall k :: 0 <= k < |x| - 1 ==> x[1..][k] == x[k + 1]; }
      IndexOfAppend(x[1..], rest, c);
    } else {
      assert x + rest == rest;
    }
  }

  /** Splitting `x c rest` where `x` has no `c`: `x` is the first part and
      the first part of `rest` is the second. */
  lemma SplitField(x: string, c: char, rest: string)
    requires c !in x
    ensures |Split(x + [c] + rest, c)| >= 2
    ensures Split(x + [c] + rest, c)[0] == x
    ensures Split(x + [c] + rest, c)[1] == Split(rest, c)[0]
  {
    var s := x + [c] + rest;
    IndexOfAppend(x, [c] + rest, c);
    assert s == x + ([c] + rest);
    assert s[..|x|] == x;
    assert s[|x| + 1..] == rest;
    SplitHead(s, c);
    SplitSecond(s, c);
  }

  /** A prefix free of `c` stays in front of the first part. */
  lemma SplitHeadAppend(x: string, rest: string, c: char)
    requires c !in x
    ensures Split(x + rest, c)[0] == x + Split(rest, c)[0]
  {
    IndexOfAppend(x, rest, c);
    SplitHead(x + rest, c);
    SplitHead(rest, c);
    assert (x + rest)[..|x| + IndexOf(rest, c)] == x + rest[..IndexOf(rest, c)];
  }

  /** Python's `s.split()`: the maximal runs of non-whitespace characters. */
  function SplitWords(s: string): (words: seq<string>)
    ensures forall k :: 0 <= k < |words| ==> IsWord(words[k])
    decreases |s|
  {
    if s == [] then []
    else if IsSpace(s[0]) then SplitWords(s[1..])
    else
      var w := WordPrefix(s);
      [w] + SplitWords(s[|w|..])
  }

  /** A non-empty run of non-whitespace characters. */
  predicate IsWord(w: string) { w != [] && NoSpace(w) }

  predicate NoSpace(s: string) { forall i :: 0 <= i < |s| ==> !IsSpace(s[i]) }

  /** The leading run of non-whitespace characters of `s`. */
  function WordPrefix(s: string): (w: string)
    ensures |w| <= |s| && w == s[..|w|] && NoSpace(w)
    ensures |w| < |s| ==> IsSpace(s[|w|])
    ensures s != [] && !IsSpace(s[0]) ==> w != []
  {
    if |s| == 0 || IsSpace(s[0]) then ""
    else
      var w := [s[0]] + WordPrefix(s[1..]);
      assert w == s[..|w|];
      w
  }

  /** The leading word of a word followed by whitespace (or nothing). */
  lemma {:induction false} WordPrefixOf(w: string, rest: string)
    requires NoSpace(w) && (rest == [] || IsSpace(rest[0]))
    ensures WordPrefix(w + rest) == w
  {
    if w == [] {
      assert w + rest == rest;
    } else {
      assert (w + rest)[1..] == w[1..] + rest;
      WordPrefixOf(w[1..], rest);
      assert [w[0]] + w[1..] == w;
    }
  }

  /** A word followed by whitespace (or nothing) splits off first. */
  lemma SplitWordsCons(w: string, rest: string)
    requires IsWord(w) && (rest == [] || IsSpace(rest[0]))
    ensures SplitWords(w + rest) == [w] + SplitWords(rest)
  {
    WordPrefixOf(w, rest);
    assert (w + rest)[|w|..] == rest;
  }

  /** Leading whitespace is skipped. */
  lemma SplitWordsSpace(c: char, t: string)
    requires IsSpace(c)
    ensures SplitWords([c] + t) == SplitWords(t)
  {
    assert ([c] + t)[1..] == t;
  }

  /** Whitespace separates words: what comes before a whitespace character
      and what comes after it split independently, so no word spans it and
      every word is a maximal run. */
  lemma {:induction false} SplitWordsAtSpace(a: string, c: char, b: string)
    requires IsSpace(c)
    ensures SplitWords(a + [c] + b) == SplitWords(a) + SplitWords(b)
    decreases |a|, 1
  {
    if a == [] {
      assert a + [c] + b == [c] + b;
      SplitWordsSpace(c, b);
    } else if IsSpace(a[0]) {
      AtSpaceAfterSpace(a, c, b);
    } else {
      AtSpaceAfterWord(a, c, b);
    }
  }

  lemma {:induction false} AtSpaceAfterSpace(a: string, c: char, b: string)
    requires IsSpace(c) && a != [] && IsSpace(a[0])
    ensures SplitWords(a + [c] + b) == SplitWords(a) + SplitWords(b)
    decreases |a|, 0
  {
    var t := [c] + b;
    assert a + [c] + b == a + t;
    SpaceHead(a, t);
    assert a[1..] + t == a[1..] + [c] + b;
    SplitWordsAtSpace(a[1..], c, b);
  }

  lemma {:induction false} AtSpaceAfterWord(a: string, c: char, b: string)
    requires IsSpace(c) && a != [] && !IsSpace(a[0])
    ensures SplitWords(a + [c] + b) == SplitWords(a) + SplitWords(b)
    decreases |a|, 0
  {
    var w := WordPrefix(a);
    var rest := a[|w|..];
    WordHead(a, c, b);
    SplitWordsAtSpace(rest, c, b);
    SeqAssoc([w], SplitWords(rest), SplitWords(b));
  }

  lemma SeqAssoc<T>(x: seq<T>, y: seq<T>, z: seq<T>)
    ensures x + y + z == x + (y + z)
  {
  }

  /** Leading whitespace of `a` is skipped, with or without what follows. */
  lemma SpaceHead(a: string, t: string)
    requires a != [] && IsSpace(a[0])
    ensures SplitWords(a + t) == SplitWords(a[1..] + t)
    ensures SplitWords(a) == SplitWords(a[1..])
  {
    assert a + t == [a[0]] + (a[1..] + t);
    SplitWordsSpace(a[0], a[1..] + t);
    assert a == [a[0]] + a[1..];
    SplitWordsSpace(a[0], a[1..]);
  }

  /** The leading word of `a` splits off first, whatever whitespace-led
      text follows. */
  lemma WordHead(a: string, c: char, b: string)
    requires a != [] && !IsSpace(a[0]) && IsSpace(c)
    ensures var w := WordPrefix(a);
            && |a[|w|..]| < |a|
            && SplitWords(a + [c] + b) == [w] + SplitWords(a[|w|..] + [c] + b)
            && SplitWords(a) == [w] + SplitWords(a[|w|..])
  {
    var w := WordPrefix(a);
    var rest := a[|w|..];
    var t := rest + [c] + b;
    assert t != [] && (rest == [] || IsSpace(rest[0])) && IsSpace(t[0]) by {
      if rest != [] { assert t[0] == rest[0]; } else { assert t[0] == c; }
    }
    assert a + [c] + b == w + t;
    SplitWordsCons(w, t);
    assert a == w + rest;
    SplitWordsCons(w, rest);
  }

  /** `" ".join(words).split() == words`: joining words with single spaces
      and splitting on whitespace gives the words back. */
  lemma {:induction false} SplitWordsJoin(words: seq<string>)
    requires forall k :: 0 <= k < |words| ==> IsWord(words[k])
    ensures SplitWords(Join(words, " ")) == words
  {
    if |words| == 1 {
      SplitWordsCons(words[0], "");
      assert words[0] + "" == words[0];
    } else if |words| > 1 {
      var w := words[0];
      var tail := Join(words[1..], " ");
      assert Join(words, " ") == w + ([' '] + tail);
      SplitWordsCons(w, [' '] + tail);
      SplitWordsSpace(' ', tail);
      SplitWordsJoin(words[1..]);
      assert words == [w] + words[1..];
    }
  }

  /** Concatenating the words gives `s` with its whitespace removed. */
  function Concat(ss: seq<string>): string
  {
    if |ss| == 0 then "" else ss[0] + Concat(ss[1..])
  }

  function RemoveSpace(s: string): (r: string)
    ensures NoSpace(r)
  {
    if |s| == 0 then "" else (if IsSpace(s[0]) then "" else [s[0]]) + RemoveSpace(s[1..])
  }

  lemma {:induction false} RemoveSpaceAppend(a: string, b: string)
    ensures RemoveSpace(a + b) == RemoveSpace(a) + RemoveSpace(b)
  {
    if |a| > 0 {
      assert (a + b)[1..] == a[1..] + b;
      RemoveSpaceAppend(a[1..], b);
    } else {
      assert a + b == b;
    }
  }

  lemma {:induction false} RemoveSpaceOfSpaces(s: string)
    requires AllSpace(s)
    ensures RemoveSpace(s) == ""
  {
    if |s| > 0 { RemoveSpaceOfSpaces(s[1..]); }
  }

  lemma {:induction false} RemoveSpaceOfWord(s: string)
    requires NoSpace(s)
    ensures RemoveSpace(s) == s
  {
    if |s| > 0 { RemoveSpaceOfWord(s[1..]); }
  }

  /** `s.split()` loses exactly the whitespace of `s`. */
  lemma {:induction false} SplitWordsConcat(s: string)
    ensures Concat(SplitWords(s)) == RemoveSpace(s)
    decreases |s|
  {
    if s == [] {
    } else if IsSpace(s[0]) {
      SplitWordsConcat(s[1..]);
    } else {
      var w := WordPrefix(s);
      assert s == w + s[|w|..];
      RemoveSpaceAppend(w, s[|w|..]);
      RemoveSpaceOfWord(w);
      SplitWordsConcat(s[|w|..]);
    }
  }

  /** True when `pat` occurs in `s` at position `i`. */
  predicate OccursAt(s: string, pat: string, i: nat)
  {
    i + |pat| <= |s| && s[i..i + |pat|] == pat
  }

  ghost predicate Contains(s: string, pat: string)
  {
    exists i: nat :: OccursAt(s, pat, i)
  }

  /** `s.replace(pat, rep)`: every non-overlapping occurrence of `pat`,
      scanning left to right, is replaced by `rep`. */
  function ReplaceAll(s: string, pat: string, rep: string): (r: string)
    requires pat != []
    ensures !Contains(s, pat) ==> r == s
    decreases |s|
  {
    if |s| < |pat| then
      NoRoomNoOccurrence(s, pat);
      s
    else if s[..|pat|] == pat then
      assert OccursAt(s, pat, 0);
      rep + ReplaceAll(s[|pat|..], pat, rep)
    else
      ContainsTail(s, pat);
      [s[0]] + ReplaceAll(s[1..], pat, rep)
  }

  lemma NoRoomNoOccurrence(s: string, pat: string)
    requires |s| < |pat|
    ensures !Contains(s, pat)
  {
  }

  lemma ContainsTail(s: string, pat: string)
    requires |s| > 0
    ensures Contains(s[1..], pat) ==> Contains(s, pat)
  {
    if Contains(s[1..], pat) {
      var i: nat :| OccursAt(s[1..], pat, i);
      assert s[i + 1..i + 1 + |pat|] == s[1..][i..i + |pat|];
      assert OccursAt(s, pat, i + 1);
    }
  }

  /** When the replacement is made of characters foreign to the pattern, a
      prefix of the result without any replacement character is a prefix of
      the input. */
  lemma {:induction false} ReplacePrefix(s: string, pat: string, rep: string, k: nat)
    requires pat != [] && rep != []
    requires k <= |ReplaceAll(s, pat, rep)|
    requires forall j :: 0 <= j < k ==> ReplaceAll(s, pat, rep)[j] !in rep
    ensures k <= |s| && ReplaceAll(s, pat, rep)[..k] == s[..k]
    decreases |s|
  {
    var r := ReplaceAll(s, pat, rep);
    if |s| < |pat| {
    } else if s[..|pat|] == pat {
      assert r[0] == rep[0];
      assert k == 0;
    } else if k > 0 {
      var t := ReplaceAll(s[1..], pat, rep);
      assert r == [s[0]] + t;
      forall j | 0 <= j < k - 1 ensures t[j] !in rep { assert t[j] == r[j + 1]; }
      ReplacePrefix(s[1..], pat, rep, k - 1);
      assert r[..k] == [s[0]] + t[..k - 1];
    }
  }

  /** An occurrence in `a + t` that starts past `a` is an occurrence in `t`. */
  lemma OccursShift(a: string, t: string, pat: string, i: nat)
    requires OccursAt(a + t, pat, i) && i >= |a|
    ensures OccursAt(t, pat, i - |a|)
  {
    assert (a + t)[i..i + |pat|] == t[i - |a|..i - |a| + |pat|];
  }

  /** An occurrence cannot start inside `rep` when `rep` shares no character with `pat`. */
  lemma NotInsideRep(rep: string, t: string, pat: string, i: nat)
    requires pat != [] && forall j :: 0 <= j < |rep| ==> rep[j] !in pat
    requires OccursAt(rep + t, pat, i)
    ensures i >= |rep|
  {
    assert (rep + t)[i] == pat[0];
    assert forall j :: 0 <= j < |rep| ==> (rep + t)[j] == rep[j];
  }

  /** After `s.replace(pat, rep)`, with `rep` non-empty and sharing no
      character with `pat`, no occurrence of `pat` is left. */
  lemma {:induction false} ReplaceLeavesNone(s: string, pat: string, rep: string)
    requires pat != [] && rep != []
    requires forall j :: 0 <= j < |rep| ==> rep[j] !in pat
    ensures !Contains(ReplaceAll(s, pat, rep), pat)
    decreases |s|
  {
    if |s| < |pat| {
    } else if s[..|pat|] == pat {
      ReplaceLeavesNone(s[|pat|..], pat, rep);
      var t := ReplaceAll(s[|pat|..], pat, rep);
      if Contains(rep + t, pat) {
        var i: nat :| OccursAt(rep + t, pat, i);
        NotInsideRep(rep, t, pat, i);
        OccursShift(rep, t, pat, i);
      }
    } else {
      ReplaceLeavesNone(s[1..], pat, rep);
      var t := ReplaceAll(s[1..], pat, rep);
      if Contains([s[0]] + t, pat) {
        var i: nat :| OccursAt([s[0]] + t, pat, i);
        if i == 0 {
          NoMatchAtHead(s, pat, rep);
        } else {
          OccursShift([s[0]], t, pat, i);
        }
      }
    }
  }

  /** When the replacement of `s` past its first character, behind that
      character, starts with `pat`, then `s` itself starts with `pat`. */
  lemma NoMatchAtHead(s: string, pat: string, rep: string)
    requires pat != [] && rep != []
    requires forall j :: 0 <= j < |rep| ==> rep[j] !in pat
    requires |s| >= |pat|
    ensures OccursAt([s[0]] + ReplaceAll(s[1..], pat, rep), pat, 0) ==> s[..|pat|] == pat
  {
    var t := ReplaceAll(s[1..], pat, rep);
    var r := [s[0]] + t;
    if OccursAt(r, pat, 0) {
      assert r[..|pat|] == pat;
      forall j | 0 <= j < |pat| - 1 ensures t[j] !in rep {
        assert t[j] == r[j + 1];
        assert r[j + 1] == pat[j + 1];
      }
      ReplacePrefix(s[1..], pat, rep, |pat| - 1);
      assert s[..|pat|] == [s[0]] + s[1..][..|pat| - 1];
      assert r[..|pat|] == [s[0]] + t[..|pat| - 1];
    }
  }

  /** A leading occurrence is replaced and the scan goes on after it. */
  lemma ReplaceAtHead(pat: string, rest: string, rep: string)
    requires pat != []
    ensures ReplaceAll(pat + rest, pat, rep) == rep + ReplaceAll(rest, pat, rep)
  {
    assert (pat + rest)[..|pat|] == pat;
    assert (pat + rest)[|pat|..] == rest;
  }

  /** A leading character that cannot start `pat` is copied. */
  lemma ReplacePastChar(c: char, rest: string, pat: string, rep: string)
    requires pat != [] && c != pat[0]
    ensures ReplaceAll([c] + rest, pat, rep) == [c] + ReplaceAll(rest, pat, rep)
  {
    var s := [c] + rest;
    if |s| >= |pat| {
      assert s[..|pat|][0] == c;
      assert s[1..] == rest;
    }
  }

  /** `s` with every `c` removed, the other characters kept in order. */
  function Without(s: string, c: char): (r: string)
    ensures c !in r && |r| <= |s|
  {
    if s == [] then [] else (if s[0] == c then [] else [s[0]]) + Without(s[1..], c)
  }

  /** `s.replace(c, "")` for a one-character `c` is `Without(s, c)`. */
  lemma {:induction false} ReplaceCharIsWithout(s: string, c: char)
    ensures ReplaceAll(s, [c], "") == Without(s, c)
    decreases |s|
  {
    if |s| >= 1 {
      ReplaceCharIsWithout(s[1..], c);
      assert s[..1] == [s[0]];
      if s[0] == c {
        assert ReplaceAll(s, [c], "") == "" + ReplaceAll(s[1..], [c], "");
      }
    }
  }

  /** Removal works piece by piece. */
  lemma {:induction false} WithoutAppend(a: string, b: string, c: char)
    ensures Without(a + b, c) == Without(a, c) + Without(b, c)
  {
    if a == [] {
      assert a + b == b;
    } else {
      var h := if a[0] == c then [] else [a[0]];
      assert (a + b)[0] == a[0] && (a + b)[1..] == a[1..] + b;
      assert Without(a + b, c) == h + Without(a[1..] + b, c);
      WithoutAppend(a[1..], b, c);
      assert Without(a, c) == h + Without(a[1..], c);
    }
  }

  /** A string without `c` is left as it is. */
  lemma {:induction false} WithoutAbsent(s: string, c: char)
    requires c !in s
    ensures Without(s, c) == s
  {
    if s != [] {
      assert c !in s[1..];
      WithoutAbsent(s[1..], c);
    }
  }

  /** ASCII lower-casing of one character (for case-insensitive matching). */
  function LowerAscii(c: char): char
  {
    if 'A' <= c <= 'Z' then (c as int + 32) as char else c
  }

  /** `s` starts with `pat` up to ASCII case. */
  predicate StartsIgnoreCase(s: string, pat: string)
  {
    pat == [] || (|s| > 0 && LowerAscii(s[0]) == LowerAscii(pat[0]) && StartsIgnoreCase(s[1..], pat[1..]))
  }

  /** `s.replace(pat, rep)` matching `pat` without regard to ASCII case. */
  function ReplaceAllIgnoreCase(s: string, pat: string, rep: string): (r: string)
    requires pat != []
    ensures rep == [] ==> |r| <= |s|
    decreases |s|
  {
    if |s| < |pat| then s
    else if StartsIgnoreCase(s, pat) then rep + ReplaceAllIgnoreCase(s[|pat|..], pat, rep)
    else [s[0]] + ReplaceAllIgnoreCase(s[1..], pat, rep)
  }

  /** A text none of whose characters matches the first of `pat`, ignoring
      case, is left unchanged. */
  lemma {:induction false} IgnoreCaseUnchanged(s: string, pat: string, rep: string)
    requires pat != []
    requires forall k :: 0 <= k < |s| ==> LowerAscii(s[k]) != LowerAscii(pat[0])
    ensures ReplaceAllIgnoreCase(s, pat, rep) == s
    decreases |s|
  {
    if |s| >= |pat| {
      assert !StartsIgnoreCase(s, pat);
      IgnoreCaseUnchanged(s[1..], pat, rep);
      assert [s[0]] + s[1..] == s;
    }
  }

  /** A leading character that matches the start of `pat` in no case is
      copied. */
  lemma IgnoreCasePastChar(s: string, pat: string, rep: string)
    requires |s| > 0 && pat != [] && LowerAscii(s[0]) != LowerAscii(pat[0])
    ensures ReplaceAllIgnoreCase(s, pat, rep) == [s[0]] + ReplaceAllIgnoreCase(s[1..], pat, rep)
  {
  }

  /** A string of `pat`'s length that starts with `pat` up to case is
      replaced whole. */
  lemma IgnoreCaseWhole(t: string, pat: string, rep: string)
    requires pat != [] && |t| == |pat| && StartsIgnoreCase(t, pat)
    ensures ReplaceAllIgnoreCase(t, pat, rep) == rep
  {
    assert t[|pat|..] == [];
    assert rep + [] == rep;
  }

  predicate IsDigit(c: char) { '0' <= c <= '9' }

  predicate AllDigits(s: string) { forall i :: 0 <= i < |s| ==> IsDigit(s[i]) }

  /** The natural number `s` denotes in decimal (most significant digit first). */
  function DigitsValue(s: string): nat
    requires AllDigits(s)
  {
    if |s| == 0 then 0 else 10 * DigitsValue(s[..|s| - 1]) + (s[|s| - 1] as int - '0' as int)
  }

  /** Decimal digits of `n`, no leading zeros (`str(n)` for `n >= 0`). */
  function NatToString(n: nat): (s: string)
    ensures s != [] && AllDigits(s)
    ensures DigitsValue(s) == n
    ensures |s| > 1 ==> s[0] != '0'
  {
    if n < 10 then [('0' as int + n) as char]
    else
      var h := NatToString(n / 10);
      var s := h + [('0' as int + n % 10) as char];
      assert s[..|s| - 1] == h;
      s
  }

  /** `str(n)` for a Python `int`. */
  function IntToString(n: int): (s: string)
    ensures s != []
    ensures n >= 0 ==> AllDigits(s) && DigitsValue(s) == n
    ensures n < 0 ==> s[0] == '-' && AllDigits(s[1..]) && DigitsValue(s[1..]) == -n
  {
    if n >= 0 then NatToString(n) else "-" + NatToString(-n)
  }

  function Pow10(e: nat): (p: nat)
    ensures p >= 1
  {
    if e == 0 then 1 else 10 * Pow10(e - 1)
  }

  /** `float(s)` restricted to decimal literals: surrounding whitespace, an
      optional sign, digits with an optional fraction, and an optional
      exponent. `None` stands for the `ValueError` Python raises. */
  function ParseFloat(s: string): (r: Option<real>)
    ensures r.Some? ==> exists k :: 0 <= k < |s| && IsDigit(s[k])
  {
    ParseSigned(Strip(s))
  }

  /** An optionally signed literal without surrounding whitespace. */
  function ParseSigned(t: string): (r: Option<real>)
    ensures r.Some? ==> exists k :: 0 <= k < |t| && IsDigit(t[k])
  {
    if |t| > 0 && (t[0] == '+' || t[0] == '-') then
      match ParseUnsigned(t[1..])
      case None => None
      case Some(v) =>
        assert exists k :: 0 <= k < |t[1..]| && IsDigit(t[1..][k]);
        Some(if t[0] == '-' then -v else v)
    else ParseUnsigned(t)
  }

  /** An unsigned literal: mantissa, then optionally `e`/`E` and an exponent. */
  function ParseUnsigned(b: string): (r: Option<real>)
    ensures r.Some? ==> exists k :: 0 <= k < |b| && IsDigit(b[k])
  {
    var i := IndexOfExp(b);
    match ParseMantissa(b[..i])
    case None => None
    case Some(m) =>
      assert exists k :: 0 <= k < |b[..i]| && IsDigit(b[..i][k]);
      if i == |b| then Some(m)
      else
        match ParseExponent(b[i + 1..])
        case None => None
        case Some(e) =>
          Some(if e >= 0 then m * (Pow10(e) as real) else m / (Pow10(-e) as real))
  }

  function IndexOfExp(s: string): (i: nat)
    ensures i <= |s|
  {
    Min(IndexOf(s, 'e'), IndexOf(s, 'E'))
  }

  /** `digits`, `digits.`, `.digits` or `digits.digits`. */
  function ParseMantissa(m: string): (r: Option<real>)
    ensures r.Some? ==> exists k :: 0 <= k < |m| && IsDigit(m[k])
  {
    var d := IndexOf(m, '.');
    var ip := m[..d];
    var fp := if d < |m| then m[d + 1..] else "";
    if AllDigits(ip) && AllDigits(fp) && (ip != [] || fp != []) then Some(DecimalValue(ip, fp))
    else None
  }

  /** The value of the decimal `ip.fp`. */
  function DecimalValue(ip: string, fp: string): real
    requires AllDigits(ip) && AllDigits(fp)
  {
    DigitsValue(ip) as real + (DigitsValue(fp) as real) / (Pow10(|fp|) as real)
  }

  function ParseExponent(e: string): Option<int>
  {
    var neg := |e| > 0 && e[0] == '-';
    var ds := if |e| > 0 && (e[0] == '+' || e[0] == '-') then e[1..] else e;
    if ds != [] && AllDigits(ds) then Some(if neg then -(DigitsValue(ds) as int) else DigitsValue(ds))
    else None
  }

  /** Digits are not whitespace. */
  lemma DigitNotSpace(c: char)
    requires IsDigit(c)
    ensures !IsSpace(c)
  {
  }

  /** A non-digit does not occur in a run of digits. */
  lemma NonDigitAbsent(ds: string, c: char)
    requires AllDigits(ds) && !IsDigit(c)
    ensures IndexOf(ds, c) == |ds|
  {
    assert forall i :: 0 <= i < |ds| ==> ds[i] != c;
  }

  lemma MantissaOfDigits(ds: string)
    requires ds != [] && AllDigits(ds)
    ensures ParseMantissa(ds) == Some(DigitsValue(ds) as real)
  {
    NonDigitAbsent(ds, '.');
    assert ds[..|ds|] == ds;
    assert DecimalValue(ds, "") == DigitsValue(ds) as real by {
      assert DigitsValue("") == 0 && Pow10(0) == 1;
    }
  }

  /** A plain run of digits parses as the number it denotes. */
  lemma ParseDigits(ds: string)
    requires ds != [] && AllDigits(ds)
    ensures ParseUnsigned(ds) == Some(DigitsValue(ds) as real)
  {
    NonDigitAbsent(ds, 'e');
    NonDigitAbsent(ds, 'E');
    assert IndexOfExp(ds) == |ds|;
    assert ds[..|ds|] == ds;
    MantissaOfDigits(ds);
  }

  /** `float(ds)` of a plain run of digits is the number it denotes. */
  lemma ParseInteger(ds: string)
    requires ds != [] && AllDigits(ds)
    ensures ParseFloat(ds) == Some(DigitsValue(ds) as real)
  {
    DigitNotSpace(ds[0]);
    DigitNotSpace(ds[|ds| - 1]);
    StripUnchanged(ds);
    SignedUnsigned(ds);
    ParseDigits(ds);
  }

  /** A mantissa with a fractional part denotes `ip.fp`. */
  lemma MantissaOfFixed(ip: string, fp: string)
    requires AllDigits(ip) && AllDigits(fp) && (ip != [] || fp != [])
    ensures ParseMantissa(ip + "." + fp) == Some(DecimalValue(ip, fp))
  {
    var m := ip + "." + fp;
    NonDigitAbsent(ip, '.');
    assert '.' !in ip;
    assert m == ip + (['.'] + fp);
    IndexOfAppend(ip, ['.'] + fp, '.');
    assert m[..|ip|] == ip;
    assert m[|ip| + 1..] == fp;
  }

  /** Only a digit or the point can occur in `ip.fp`. */
  lemma FixedLacks(ip: string, fp: string, c: char)
    requires AllDigits(ip) && AllDigits(fp) && !IsDigit(c) && c != '.'
    ensures c !in ip + "." + fp
  {
    NonDigitAbsent(ip, c);
    NonDigitAbsent(fp, c);
  }

  /** A literal `ip.fp` with digits on both sides parses as the decimal it denotes. */
  lemma ParseFixed(ip: string, fp: string)
    requires ip != [] && fp != [] && AllDigits(ip) && AllDigits(fp)
    ensures ParseFloat(ip + "." + fp) == Some(DecimalValue(ip, fp))
  {
    var s := ip + "." + fp;
    StripFixed(ip, fp);
    UnsignedFixed(ip, fp);
    assert s[0] == ip[0] && IsDigit(ip[0]);
    SignedUnsigned(s);
  }

  /** Without a leading sign the literal is read as unsigned. */
  lemma SignedUnsigned(t: string)
    requires t != [] && IsDigit(t[0])
    ensures ParseSigned(t) == ParseUnsigned(t)
  {
  }

  lemma StripFixed(ip: string, fp: string)
    requires ip != [] && fp != [] && AllDigits(ip) && AllDigits(fp)
    ensures Strip(ip + "." + fp) == ip + "." + fp
  {
    var s := ip + "." + fp;
    assert s[0] == ip[0] && s[|s| - 1] == fp[|fp| - 1];
    DigitNotSpace(ip[0]);
    DigitNotSpace(fp[|fp| - 1]);
    StripUnchanged(s);
  }

  lemma UnsignedFixed(ip: string, fp: string)
    requires AllDigits(ip) && AllDigits(fp) && (ip != [] || fp != [])
    ensures ParseUnsigned(ip + "." + fp) == Some(DecimalValue(ip, fp))
  {
    var s := ip + "." + fp;
    FixedLacks(ip, fp, 'e');
    FixedLacks(ip, fp, 'E');
    assert IndexOfExp(s) == |s|;
    assert s[..|s|] == s;
    MantissaOfFixed(ip, fp);
  }

  /** `float(str(n)) == n` for `n >= 0`. */
  lemma NatRoundTrip(n: nat)
    ensures ParseFloat(IntToString(n)) == Some(n as real)
  {
    var s := IntToString(n);
    DigitNotSpace(s[0]);
    DigitNotSpace(s[|s| - 1]);
    StripUnchanged(s);
    ParseDigits(s);
    assert IsDigit(s[0]);
  }

  /** `float(str(n)) == n`: the float parser reads back what `IntToString` writes. */
  lemma IntRoundTrip(n: int)
    ensures ParseFloat(IntToString(n)) == Some(n as real)
  {
    if n >= 0 {
      NatRoundTrip(n);
    } else {
      NegRoundTrip(n);
    }
  }

  /** `float(str(n)) == n` for `n < 0`. */
  lemma NegRoundTrip(n: int)
    requires n < 0
    ensures ParseFloat(IntToString(n)) == Some(n as real)
  {
    var s := IntToString(n);
    assert s[|s| - 1] == s[1..][|s| - 2];
    DigitNotSpace(s[|s| - 1]);
    StripUnchanged(s);
    ParseDigits(s[1..]);
    assert ParseSigned(s) == Some(-((-n) as real));
  }
}
