/**
 * The JavaScript string built-ins the middleware relies on, written out on `seq<char>`:
 * `split` on a one-character separator, `Array.prototype.join`, `indexOf`,
 * `replace` with a string pattern (first occurrence only) and `endsWith`,
 * plus a count of occurrences used to argue about repeated replacement.
 */
module JsStrings {
  import opened Wrappers

  // ---------------------------------------------------------------------------
  // split / join

  /** `s.split(sep)`: the pieces between separators, in order; never empty ("" gives [""]). */
  function Split(s: string, sep: char): (chunks: seq<string>)
    ensures |chunks| >= 1
    ensures forall i :: 0 <= i < |chunks| ==> sep !in chunks[i]
    ensures (|chunks| == 1) == (sep !in s)
    ensures sep !in s ==> chunks == [s]
    decreases |s|
  {
    if |s| == 0 then [""]
    else if s[0] == sep then [""] + Split(s[1..], sep)
    else
      var rest := Split(s[1..], sep);
      assert s == [s[0]] + s[1..];
      [[s[0]] + rest[0]] + rest[1..]
  }

  /** `chunks.join(sep)`: `[]` gives "", one chunk gives itself. */
  function Join(chunks: seq<string>, sep: char): string
    decreases |chunks|
  {
    if |chunks| == 0 then ""
    else if |chunks| == 1 then chunks[0]
    else chunks[0] + [sep] + Join(chunks[1..], sep)
  }

  /** Joining the pieces of a split gives back the original string. */
  lemma {:induction false} JoinSplit(s: string, sep: char)
    ensures Join(Split(s, sep), sep) == s
    decreases |s|
  {
    if |s| > 0 {
      JoinSplit(s[1..], sep);
      SplitStep(s, sep);
      if s[0] == sep {
        JoinCons("", Split(s[1..], sep), sep);
      } else {
        JoinGlue(s[0], Split(s[1..], sep), sep);
      }
      assert s == [s[0]] + s[1..];
    }
  }

  /** Joining a chunk in front of others puts a separator between it and their join. */
  lemma JoinCons(x: string, rest: seq<string>, sep: char)
    requires |rest| >= 1
    ensures Join([x] + rest, sep) == x + [sep] + Join(rest, sep)
  {
    assert ([x] + rest)[1..] == rest;
  }

  /** Gluing a character onto the first chunk puts it in front of the join. */
  lemma JoinGlue(c: char, rest: seq<string>, sep: char)
    requires |rest| >= 1
    ensures Join([[c] + rest[0]] + rest[1..], sep) == [c] + Join(rest, sep)
  {
    if |rest| > 1 {
      JoinCons([c] + rest[0], rest[1..], sep);
      JoinCons(rest[0], rest[1..], sep);
      assert rest == [rest[0]] + rest[1..];
    }
  }

  /** Joining peels off the last chunk together with the separator before it. */
  lemma {:induction false} JoinSnoc(chunks: seq<string>, sep: char)
    requires |chunks| >= 2
    ensures Join(chunks, sep) == Join(chunks[..|chunks| - 1], sep) + [sep] + chunks[|chunks| - 1]
    decreases |chunks|
  {
    var n := |chunks|;
    if n > 2 {
      JoinSnoc(chunks[1..], sep);
      assert chunks[1..][..n - 2] == chunks[..n - 1][1..];
      assert chunks[1..][n - 2] == chunks[n - 1];
    }
  }

  /** One step of `Split` on a non-empty string. */
  lemma SplitStep(s: string, sep: char)
    requires |s| > 0
    ensures s[0] == sep ==> Split(s, sep) == [""] + Split(s[1..], sep)
    ensures s[0] != sep ==>
      Split(s, sep) == [[s[0]] + Split(s[1..], sep)[0]] + Split(s[1..], sep)[1..]
  {
  }

  /** Gluing a character onto the first chunk commutes with appending further chunks. */
  lemma GlueFirst(c: char, ra: seq<string>, rb: seq<string>)
    requires |ra| >= 1
    ensures [[c] + (ra + rb)[0]] + (ra + rb)[1..] == [[c] + ra[0]] + ra[1..] + rb
  {
    assert (ra + rb)[1..] == ra[1..] + rb;
  }

  /** Sequence concatenation regrouped. */
  lemma AppendAssoc<T>(x: seq<T>, y: seq<T>, z: seq<T>)
    ensures x + (y + z) == x + y + z
  {
  }

  /** Splitting at a separator splits the two sides independently. */
  lemma {:induction false} SplitConcat(a: string, sep: char, b: string)
    ensures Split(a + [sep] + b, sep) == Split(a, sep) + Split(b, sep)
    decreases |a|
  {
    var s := a + [sep] + b;
    SplitStep(s, sep);
    if |a| == 0 {
      assert s[0] == sep && s[1..] == b;
    } else {
      assert s[0] == a[0] && s[1..] == a[1..] + [sep] + b;
      SplitConcat(a[1..], sep, b);
      SplitStep(a, sep);
      if a[0] == sep {
        AppendAssoc([""], Split(a[1..], sep), Split(b, sep));
      } else {
        GlueFirst(a[0], Split(a[1..], sep), Split(b, sep));
      }
    }
  }

  /**
   * `const chunks = s.split(sep); const last = chunks.pop(); const init = chunks.join(sep);`
   * returned as the pair (init, last).
   */
  function SplitLast(s: string, sep: char): (r: (string, string))
    ensures sep !in r.1
    ensures sep in s ==> r.0 + [sep] + r.1 == s
    ensures sep !in s ==> r == ("", s)
  {
    var chunks := Split(s, sep);
    JoinSplit(s, sep);
    if |chunks| >= 2 then JoinSnoc(chunks, sep); (Join(chunks[..|chunks| - 1], sep), chunks[|chunks| - 1])
    else (Join(chunks[..|chunks| - 1], sep), chunks[|chunks| - 1])
  }

  /** The last segment is exactly what follows the last separator: earlier separators stay in the first part. */
  lemma {:induction false} SplitLastOfJoined(init: string, sep: char, last: string)
    requires sep !in last
    ensures SplitLast(init + [sep] + last, sep) == (init, last)
  {
    SplitConcat(init, sep, last);
    var ci := Split(init, sep);
    var chunks := Split(init + [sep] + last, sep);
    assert chunks == ci + [last];
    assert chunks[..|chunks| - 1] == ci;
    JoinSplit(init, sep);
  }

  // ---------------------------------------------------------------------------
  // indexOf / replace / endsWith

  /** `pat` occurs in `s` starting at index `i`. */
  predicate MatchAt(s: string, i: int, pat: string)
  {
    0 <= i && i + |pat| <= |s| && s[i..i + |pat|] == pat
  }

  /** One character that differs from `pat` rules out a match. */
  lemma Mismatch(s: string, i: int, pat: string, k: int)
    requires 0 <= i <= k < i + |pat| && k < |s|
    requires s[k] != pat[k - i]
    ensures !MatchAt(s, i, pat)
  {
    if i + |pat| <= |s| {
      assert s[i..i + |pat|][k - i] == s[k];
    }
  }

  /** A match that lies inside the prefix `a` of `a + t` is a match in `a`. */
  lemma MatchAtPrefix(a: string, t: string, i: int, pat: string)
    requires 0 <= i && i + |pat| <= |a|
    ensures MatchAt(a + t, i, pat) == MatchAt(a, i, pat)
  {
    assert (a + t)[i..i + |pat|] == a[i..i + |pat|];
  }

  /** Dropping the first character shifts every match one place left. */
  lemma MatchAtTail(s: string, j: int, pat: string)
    requires |s| > 0 && j >= 0
    ensures MatchAt(s, j + 1, pat) == MatchAt(s[1..], j, pat)
  {
    if j + 1 + |pat| <= |s| {
      assert s[1..][j..j + |pat|] == s[j + 1..j + 1 + |pat|];
    }
  }

  /** `s.indexOf(pat)`, with `None` for JavaScript's `-1`: the first index where `pat` occurs. */
  function IndexOf(s: string, pat: string): (r: Option<nat>)
    ensures r.Some? ==> MatchAt(s, r.value, pat)
    ensures r.Some? ==> forall j :: 0 <= j < r.value ==> !MatchAt(s, j, pat)
    ensures r.None? ==> forall j :: !MatchAt(s, j, pat)
    decreases |s|
  {
    if MatchAt(s, 0, pat) then Some(0)
    else if |s| == 0 then None
    else
      var rest := IndexOf(s[1..], pat);
      forall j | 1 <= j
        ensures MatchAt(s, j, pat) == MatchAt(s[1..], j - 1, pat)
      {
        MatchAtTail(s, j - 1, pat);
      }
      match rest
      case None => None
      case Some(k) => Some(k + 1)
  }

  /**
   * `s.replace(pat, rep)` with a string pattern: only the first occurrence is replaced,
   * and a string without `pat` comes back unchanged.
   */
  function ReplaceFirst(s: string, pat: string, rep: string): (r: string)
    ensures IndexOf(s, pat).None? ==> r == s
    ensures IndexOf(s, pat).Some? ==>
      var i := IndexOf(s, pat).value;
      && |r| == |s| - |pat| + |rep|
      && r[..i] == s[..i]
      && MatchAt(r, i, rep)
      && r[i + |rep|..] == s[i + |pat|..]
  {
    match IndexOf(s, pat)
    case None => s
    case Some(i) =>
      var r := s[..i] + rep + s[i + |pat|..];
      assert r[i..i + |rep|] == rep;
      assert r[i + |rep|..] == s[i + |pat|..];
      r
  }

  /**
   * A pattern whose first character does not recur in it, and which does not occur in
   * `prefix`, occurs first in `prefix + pat` at the seam: no occurrence can straddle it.
   */
  lemma FirstMatchAtEnd(prefix: string, pat: string)
    requires |pat| > 0 && pat[0] !in pat[1..]
    requires IndexOf(prefix, pat).None?
    ensures IndexOf(prefix + pat, pat) == Some(|prefix|)
  {
    var s := prefix + pat;
    assert MatchAt(s, |prefix|, pat) by { assert s[|prefix|..] == pat; }
    forall j | 0 <= j < |prefix|
      ensures !MatchAt(s, j, pat)
    {
      if j + |pat| <= |prefix| {
        MatchAtPrefix(prefix, pat, j, pat);
      } else {
        // The window covers the head of pat at an offset where pat has another character.
        assert s[|prefix|] == pat[0];
        assert pat[|prefix| - j] == pat[1..][|prefix| - j - 1];
        Mismatch(s, j, pat, |prefix|);
      }
    }
  }

  /** A character that is not in `pat` cannot complete an occurrence at the end of `s`. */
  lemma NoMatchAppendForeign(s: string, c: char, pat: string)
    requires |pat| > 0 && c !in pat
    requires IndexOf(s, pat).None?
    ensures IndexOf(s + [c], pat).None?
  {
    forall j | 0 <= j
      ensures !MatchAt(s + [c], j, pat)
    {
      if j + |pat| <= |s| {
        MatchAtPrefix(s, [c], j, pat);
      } else if j + |pat| == |s| + 1 {
        assert pat[|s| - j] in pat;
        Mismatch(s + [c], j, pat, |s|);
      }
    }
  }

  /** Text appended after the first occurrence does not move it. */
  lemma IndexOfExtend(s: string, t: string, pat: string)
    requires IndexOf(s, pat).Some?
    ensures IndexOf(s + t, pat) == IndexOf(s, pat)
  {
    var i := IndexOf(s, pat).value;
    MatchAtPrefix(s, t, i, pat);
    forall j | 0 <= j < i
      ensures !MatchAt(s + t, j, pat)
    {
      MatchAtPrefix(s, t, j, pat);
    }
    var r := IndexOf(s + t, pat);
    assert r.Some? by { assert MatchAt(s + t, i, pat); }
    assert !MatchAt(s + t, r.value, pat) || r.value >= i;
    assert r.value <= i by { assert MatchAt(s + t, i, pat); }
  }

  /** Replacing the first occurrence when it sits right after `prefix`. */
  lemma ReplaceFirstAt(prefix: string, pat: string, rest: string, rep: string)
    requires IndexOf(prefix + pat + rest, pat) == Some(|prefix|)
    ensures ReplaceFirst(prefix + pat + rest, pat, rep) == prefix + rep + rest
  {
    var s, i := prefix + pat + rest, |prefix|;
    assert s[..i] == prefix;
    assert s[i + |pat|..] == rest;
    var r := ReplaceFirst(s, pat, rep);
    assert r == r[..i] + r[i..i + |rep|] + r[i + |rep|..];
  }

  /** Replacing a first occurrence that ends the string. */
  lemma ReplaceFirstAtEnd(prefix: string, pat: string, rep: string)
    requires |pat| > 0 && pat[0] !in pat[1..]
    requires IndexOf(prefix, pat).None?
    ensures ReplaceFirst(prefix + pat, pat, rep) == prefix + rep
  {
    FirstMatchAtEnd(prefix, pat);
    var s, i := prefix + pat, |prefix|;
    assert s[..i] == prefix;
    var r := ReplaceFirst(s, pat, rep);
    assert r == r[..i] + r[i..i + |rep|] + r[i + |rep|..];
  }

  /**
   * A pattern whose first character does not recur in it, replaced in `prefix + pat + rest`
   * where `prefix` does not contain it: the occurrence right after `prefix` is the one replaced.
   */
  lemma ReplaceFirstAfter(prefix: string, pat: string, rest: string, rep: string)
    requires |pat| > 0 && pat[0] !in pat[1..]
    requires IndexOf(prefix, pat).None?
    ensures ReplaceFirst(prefix + pat + rest, pat, rep) == prefix + rep + rest
  {
    FirstMatchAtEnd(prefix, pat);
    IndexOfExtend(prefix + pat, rest, pat);
    ReplaceFirstAt(prefix, pat, rest, rep);
  }

  /** `s.endsWith(suffix)`. */
  predicate EndsWith(s: string, suffix: string)
  {
    |suffix| <= |s| && s[|s| - |suffix|..] == suffix
  }

  // ---------------------------------------------------------------------------
  // counting occurrences

  /** How many indexes of `s` start an occurrence of `pat` (overlapping occurrences counted). */
  function Occurrences(s: string, pat: string): nat
    decreases |s|
  {
    if |s| < |pat| || |s| == 0 then 0
    else (if MatchAt(s, 0, pat) then 1 else 0) + Occurrences(s[1..], pat)
  }

  /** Occurrences add up over a concatenation when no occurrence straddles the seam. */
  lemma {:induction false} OccurrencesAppend(a: string, t: string, pat: string)
    requires forall j :: |a| - |pat| < j < |a| ==> !MatchAt(a + t, j, pat)
    ensures Occurrences(a + t, pat) == Occurrences(a, pat) + Occurrences(t, pat)
    decreases |a|
  {
    if |a| == 0 {
      assert a + t == t;
    } else {
      var s := a + t;
      assert s[1..] == a[1..] + t;
      forall j | |a[1..]| - |pat| < j < |a[1..]|
        ensures !MatchAt(a[1..] + t, j, pat)
      {
        if j >= 0 { MatchAtTail(s, j, pat); }
      }
      OccurrencesAppend(a[1..], t, pat);
      if |a| >= |pat| {
        MatchAtPrefix(a, t, 0, pat);
      } else {
        assert Occurrences(a[1..], pat) == 0;
        assert |pat| > 0;
        assert !MatchAt(s, 0, pat);
      }
    }
  }

  /** Occurrences of `c + t` are those of `t` when no index inside `c` starts one. */
  lemma {:induction false} OccurrencesSkip(c: string, t: string, pat: string)
    requires forall j :: 0 <= j < |c| ==> !MatchAt(c + t, j, pat)
    ensures Occurrences(c + t, pat) == Occurrences(t, pat)
    decreases |c|
  {
    if |c| == 0 {
      assert c + t == t;
    } else {
      var s := c + t;
      assert s[1..] == c[1..] + t;
      forall j | 0 <= j < |c[1..]|
        ensures !MatchAt(c[1..] + t, j, pat)
      {
        MatchAtTail(s, j, pat);
      }
      OccurrencesSkip(c[1..], t, pat);
    }
  }

  /** In `pat + b` only the head starts an occurrence, when `pat`'s first character does not recur. */
  lemma OccurrencesOfHead(pat: string, b: string)
    requires |pat| > 0 && pat[0] !in pat[1..]
    ensures Occurrences(pat + b, pat) == 1 + Occurrences(b, pat)
  {
    var pb := pat + b;
    assert pb[..|pat|] == pat;
    assert pb[1..] == pat[1..] + b;
    forall j | 0 <= j < |pat[1..]|
      ensures !MatchAt(pat[1..] + b, j, pat)
    {
      assert (pat[1..] + b)[j] == pat[1..][j];
      Mismatch(pat[1..] + b, j, pat, j);
    }
    OccurrencesSkip(pat[1..], b, pat);
  }

  /** No index of `rep` starts an occurrence of `pat` when `rep` has none of its characters. */
  lemma OccurrencesOfForeign(rep: string, b: string, pat: string)
    requires |pat| > 0
    requires forall k :: 0 <= k < |rep| ==> rep[k] !in pat
    ensures Occurrences(rep + b, pat) == Occurrences(b, pat)
  {
    forall j | 0 <= j < |rep|
      ensures !MatchAt(rep + b, j, pat)
    {
      assert (rep + b)[j] == rep[j];
      Mismatch(rep + b, j, pat, j);
    }
    OccurrencesSkip(rep, b, pat);
  }

  /** No occurrence straddles the seam of `a + (rep + b)` when `rep` starts with a character not in `pat`. */
  lemma NoStraddleForeign(a: string, rep: string, b: string, pat: string)
    requires |rep| > 0 && rep[0] !in pat
    ensures forall j :: |a| - |pat| < j < |a| ==> !MatchAt(a + (rep + b), j, pat)
  {
    forall j | |a| - |pat| < j < |a|
      ensures !MatchAt(a + (rep + b), j, pat)
    {
      if j >= 0 {
        assert (a + (rep + b))[|a|] == rep[0];
        assert pat[|a| - j] in pat;
        Mismatch(a + (rep + b), j, pat, |a|);
      }
    }
  }

  /**
   * Replacing the first occurrence of `pat` by a non-empty `rep` that shares no character with
   * `pat` removes exactly one occurrence, provided `pat` cannot overlap itself (its first
   * character does not recur in it).
   */
  lemma ReplaceFirstRemovesOne(s: string, pat: string, rep: string)
    requires IndexOf(s, pat).Some?
    requires |pat| > 0 && |rep| > 0
    requires pat[0] !in pat[1..]
    requires forall k :: 0 <= k < |rep| ==> rep[k] !in pat
    ensures Occurrences(ReplaceFirst(s, pat, rep), pat) == Occurrences(s, pat) - 1
  {
    var i := IndexOf(s, pat).value;
    var a, b := s[..i], s[i + |pat|..];
    var r := ReplaceFirst(s, pat, rep);
    assert r == a + (rep + b) by {
      SplitAtMatch(s, i, pat);
      AppendAssoc(a, pat, b);
      ReplaceFirstAt(a, pat, b, rep);
      AppendAssoc(a, rep, b);
    }
    OccurrencesAroundFirst(s, pat, i);
    OccurrencesAroundForeign(a, rep, b, pat);
  }

  /** The first occurrence of `pat` in `s` counts once, between the occurrences before and after it. */
  lemma OccurrencesAroundFirst(s: string, pat: string, i: nat)
    requires IndexOf(s, pat) == Some(i)
    requires |pat| > 0 && pat[0] !in pat[1..]
    ensures Occurrences(s, pat) == Occurrences(s[..i], pat) + 1 + Occurrences(s[i + |pat|..], pat)
  {
    SplitAtMatch(s, i, pat);
    // The first occurrence is at i, so none straddles the end of the text before it.
    assert forall j :: i - |pat| < j < i ==> !MatchAt(s, j, pat);
    OccurrencesAroundHead(s[..i], pat, s[i + |pat|..]);
  }

  /** An occurrence that nothing straddles counts once, between the two sides. */
  lemma OccurrencesAroundHead(a: string, pat: string, b: string)
    requires |pat| > 0 && pat[0] !in pat[1..]
    requires forall j :: |a| - |pat| < j < |a| ==> !MatchAt(a + (pat + b), j, pat)
    ensures Occurrences(a + (pat + b), pat) == Occurrences(a, pat) + 1 + Occurrences(b, pat)
  {
    OccurrencesAppend(a, pat + b, pat);
    OccurrencesOfHead(pat, b);
  }

  /** A string cut around a match of `pat`. */
  lemma SplitAtMatch(s: string, i: nat, pat: string)
    requires MatchAt(s, i, pat)
    ensures s == s[..i] + (pat + s[i + |pat|..])
  {
    assert s[i..i + |pat|] == pat;
  }

  /** A text sharing no character with `pat` adds no occurrence, at its seams or inside. */
  lemma OccurrencesAroundForeign(a: string, rep: string, b: string, pat: string)
    requires |pat| > 0 && |rep| > 0
    requires forall k :: 0 <= k < |rep| ==> rep[k] !in pat
    ensures Occurrences(a + (rep + b), pat) == Occurrences(a, pat) + Occurrences(b, pat)
  {
    NoStraddleForeign(a, rep, b, pat);
    OccurrencesAppend(a, rep + b, pat);
    OccurrencesOfForeign(rep, b, pat);
  }

  /** Concatenation regrouped, stated once so that callers need not re-derive it. */
  lemma ConcatAssoc(a: string, b: string, c: string)
    ensures a + b + c == a + (b + c)
  {
  }
}
