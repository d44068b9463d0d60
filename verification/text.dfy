/** String operations shared by the React components and the Python scripts.

    Characters are modelled on ASCII: upper/lower case changes only `A`-`Z`,
    whitespace is space, tab, line feed, carriage return, vertical tab and
    form feed, a digit is `0`-`9`, and a word character (the `\w` of the
    regular expressions) is a letter, a digit or `_`. */
module Text {

  // ---------------------------------------------------------------- characters

  predicate IsUpper(c: char) { 'A' <= c <= 'Z' }
  predicate IsLowerLetter(c: char) { 'a' <= c <= 'z' }
  predicate IsDigit(c: char) { '0' <= c <= '9' }

  /** `\w`, the class on which the regex word boundary `\b` is decided. */
  predicate IsWordChar(c: char) { IsUpper(c) || IsLowerLetter(c) || IsDigit(c) || c == '_' }

  /** `\s`, `str.split()`, `str.strip()` and `String.prototype.trim`. */
  predicate IsSpace(c: char) {
    c == ' ' || c == '\t' || c == '\n' || c == '\r' || c == '\U{B}' || c == '\U{C}'
  }

  function LowerChar(c: char): char { if IsUpper(c) then (c as int + 32) as char else c }
  function UpperChar(c: char): char { if IsLowerLetter(c) then (c as int - 32) as char else c }

  /** `toLowerCase()` / `str.lower()`. */
  function Lower(s: string): string {
    seq(|s|, i requires 0 <= i < |s| => LowerChar(s[i]))
  }

  predicate HasNoUpper(s: string) { forall i :: 0 <= i < |s| ==> !IsUpper(s[i]) }

  lemma LowerHasNoUpper(s: string)
    ensures HasNoUpper(Lower(s))
  {}

  lemma LowerAppend(a: string, b: string)
    ensures Lower(a + b) == Lower(a) + Lower(b)
  {}

  lemma LowerOfLowered(s: string)
    requires HasNoUpper(s)
    ensures Lower(s) == s
  {}

  /** All characters are digits, and there is at least one: `/^\d+$/`. */
  predicate AllDigits(s: string) { |s| > 0 && forall i :: 0 <= i < |s| ==> IsDigit(s[i]) }

  // ---------------------------------------------------------------- prefixes, substrings

  predicate StartsWith(s: string, p: string) { |p| <= |s| && s[..|p|] == p }
  predicate EndsWith(s: string, p: string) { |p| <= |s| && s[|s| - |p|..] == p }

  /** `needle in hay` (Python) and `hay.includes(needle)` (JavaScript). */
  predicate Contains(hay: string, needle: string)
    decreases |hay|
  {
    StartsWith(hay, needle) || (hay != [] && Contains(hay[1..], needle))
  }

  /** `needle` occurs in `hay` starting at index `i`. */
  predicate OccursAt(hay: string, needle: string, i: nat) {
    i + |needle| <= |hay| && hay[i..i + |needle|] == needle
  }

  lemma {:induction false} ContainsAt(hay: string, needle: string)
    ensures Contains(hay, needle) <==> exists i: nat :: OccursAt(hay, needle, i)
    decreases |hay|
  {
    if StartsWith(hay, needle) {
      assert OccursAt(hay, needle, 0);
    }
    if OccursAt(hay, needle, 0) {
      assert hay[..|needle|] == hay[0..|needle|];
    }
    if hay == [] {
      if exists i: nat :: OccursAt(hay, needle, i) {
        var i: nat :| OccursAt(hay, needle, i);
        assert i == 0;
      }
    } else {
      ContainsAt(hay[1..], needle);
      if Contains(hay[1..], needle) {
        var i: nat :| OccursAt(hay[1..], needle, i);
        assert hay[i + 1..i + 1 + |needle|] == hay[1..][i..i + |needle|];
        assert OccursAt(hay, needle, i + 1);
      }
      if exists i: nat :: OccursAt(hay, needle, i) {
        var i: nat :| OccursAt(hay, needle, i);
        if i > 0 {
          assert hay[1..][i - 1..i - 1 + |needle|] == hay[i..i + |needle|];
          assert OccursAt(hay[1..], needle, i - 1);
        }
      }
    }
  }

  lemma EmptyIsContained(hay: string)
    ensures Contains(hay, "")
  {}

  // ---------------------------------------------------------------- trimming

  function TrimStart(s: string): (r: string)
    ensures |r| <= |s| && r == s[|s| - |r|..]
    ensures forall i :: 0 <= i < |s| - |r| ==> IsSpace(s[i])
    ensures r == [] || !IsSpace(r[0])
  {
    if s != [] && IsSpace(s[0]) then TrimStart(s[1..]) else s
  }

  function TrimEnd(s: string): (r: string)
    ensures |r| <= |s| && r == s[..|r|]
    ensures forall i :: |r| <= i < |s| ==> IsSpace(s[i])
    ensures r == [] || !IsSpace(r[|r| - 1])
  {
    if s != [] && IsSpace(s[|s| - 1]) then TrimEnd(s[..|s| - 1]) else s
  }

  /** `trim()` / `strip()`: whitespace removed from both ends. */
  function Trim(s: string): (r: string)
    ensures r == [] || (!IsSpace(r[0]) && !IsSpace(r[|r| - 1]))
  {
    TrimEnd(TrimStart(s))
  }

  /** What `trim()` leaves is a slice of its input bordered by whitespace only. */
  lemma TrimIsSlice(s: string) returns (k: nat)
    ensures k + |Trim(s)| <= |s| && Trim(s) == s[k..k + |Trim(s)|]
    ensures forall i :: 0 <= i < k ==> IsSpace(s[i])
    ensures forall i :: k + |Trim(s)| <= i < |s| ==> IsSpace(s[i])
  {
    var t := TrimStart(s);
    k := |s| - |t|;
    assert TrimEnd(t) == t[..|TrimEnd(t)|];
  }

  lemma TrimKeepsChars(s: string)
    ensures forall i :: 0 <= i < |Trim(s)| ==> Trim(s)[i] in s
  {
    var k := TrimIsSlice(s);
    assert forall i :: 0 <= i < |Trim(s)| ==> Trim(s)[i] == s[k + i];
  }

  lemma TrimOfTrimmed(s: string)
    requires s == [] || (!IsSpace(s[0]) && !IsSpace(s[|s| - 1]))
    ensures Trim(s) == s
  {}

  /** Nothing but whitespace (possibly nothing at all). */
  predicate Blank(s: string) { forall i :: 0 <= i < |s| ==> IsSpace(s[i]) }

  lemma LowerKeepsBlank(s: string)
    ensures Blank(Lower(s)) <==> Blank(s)
  {
    assert forall i :: 0 <= i < |s| ==> Lower(s)[i] == LowerChar(s[i]);
  }

  /** `trim()` yields the empty string exactly for blank input. */
  lemma TrimEmptyIffBlank(s: string)
    ensures Trim(s) == [] <==> Blank(s)
  {
    var t := TrimStart(s);
    if t != [] {
      assert !IsSpace(t[0]);
    }
  }

  // ---------------------------------------------------------------- whitespace runs

  /** Every whitespace character is a plain space and no two are adjacent. */
  predicate SingleSpaced(s: string) {
    && (forall i :: 0 <= i < |s| && IsSpace(s[i]) ==> s[i] == ' ')
    && (forall i :: 0 <= i < |s| - 1 ==> !(IsSpace(s[i]) && IsSpace(s[i + 1])))
  }

  /** `replace(/\s+/g, " ")`: each maximal run of whitespace becomes one space;
      `inRun` says the character before `s` was whitespace of the same run. */
  function CollapseFrom(s: string, inRun: bool): (r: string)
    ensures |r| <= |s|
    ensures SingleSpaced(r)
    ensures inRun ==> r == [] || !IsSpace(r[0])
    ensures forall i :: 0 <= i < |r| ==> r[i] == ' ' || r[i] in s
    decreases |s|
  {
    if s == [] then []
    else if IsSpace(s[0]) then
      (if inRun then CollapseFrom(s[1..], true) else " " + CollapseFrom(s[1..], true))
    else [s[0]] + CollapseFrom(s[1..], false)
  }

  function CollapseSpaces(s: string): string { CollapseFrom(s, false) }

  lemma {:induction false} CollapseOfSingleSpaced(s: string, inRun: bool)
    requires SingleSpaced(s)
    requires inRun ==> s == [] || !IsSpace(s[0])
    ensures CollapseFrom(s, inRun) == s
    decreases |s|
  {
    if s != [] {
      CollapseOfSingleSpaced(s[1..], IsSpace(s[0]));
    }
  }

  lemma TrimKeepsSingleSpaced(s: string)
    requires SingleSpaced(s)
    ensures SingleSpaced(Trim(s))
  {
    var k := TrimIsSlice(s);
    var t := Trim(s);
    forall i | 0 <= i < |t| - 1 ensures !(IsSpace(t[i]) && IsSpace(t[i + 1])) {
      assert t[i] == s[k + i] && t[i + 1] == s[k + i + 1];
    }
    forall i | 0 <= i < |t| && IsSpace(t[i]) ensures t[i] == ' ' {
      assert t[i] == s[k + i];
    }
  }

  lemma {:induction false} CollapseKeepsBlank(s: string, inRun: bool)
    ensures Blank(CollapseFrom(s, inRun)) <==> Blank(s)
    decreases |s|
  {
    if s != [] {
      CollapseKeepsBlank(s[1..], IsSpace(s[0]));
      var r := CollapseFrom(s, inRun);
      if IsSpace(s[0]) {
        assert Blank(s) <==> Blank(s[1..]);
        if !inRun {
          assert r[1..] == CollapseFrom(s[1..], true);
        }
      } else {
        assert r[0] == s[0];
      }
    }
  }

  // ---------------------------------------------------------------- words (Python str.split)

  /** A word of `str.split()`: non-empty and free of whitespace. */
  predicate IsToken(w: string) { w != [] && forall i :: 0 <= i < |w| ==> !IsSpace(w[i]) }

  /** Length of the leading run of non-whitespace characters. */
  function WordLen(s: string): (n: nat)
    ensures n <= |s|
    ensures forall i :: 0 <= i < n ==> !IsSpace(s[i])
    ensures n < |s| ==> IsSpace(s[n])
    ensures s != [] && !IsSpace(s[0]) ==> n > 0
  {
    if s == [] || IsSpace(s[0]) then 0 else 1 + WordLen(s[1..])
  }

  /** `str.split()` with no argument: the maximal runs of non-whitespace. */
  function Words(s: string): seq<string>
    decreases |s|
  {
    var t := TrimStart(s);
    if t == [] then [] else [t[..WordLen(t)]] + Words(t[WordLen(t)..])
  }

  lemma {:induction false} WordsAreTokens(s: string)
    ensures forall i :: 0 <= i < |Words(s)| ==> IsToken(Words(s)[i])
    decreases |s|
  {
    var t := TrimStart(s);
    if t != [] {
      var n := WordLen(t);
      WordsAreTokens(t[n..]);
      FirstWordIsToken(t);
      TokensCons(t[..n], Words(t[n..]));
    }
  }

  lemma FirstWordIsToken(t: string)
    requires t != [] && !IsSpace(t[0])
    ensures IsToken(t[..WordLen(t)])
  {
    assert forall j :: 0 <= j < WordLen(t) ==> t[..WordLen(t)][j] == t[j];
  }

  lemma TokensCons(w: string, rest: seq<string>)
    requires IsToken(w) && forall i :: 0 <= i < |rest| ==> IsToken(rest[i])
    ensures forall i :: 0 <= i < |[w] + rest| ==> IsToken(([w] + rest)[i])
  {
    var ws := [w] + rest;
    forall i | 0 <= i < |ws| ensures IsToken(ws[i]) {
      if i > 0 {
        assert ws[i] == rest[i - 1];
      }
    }
  }

  /** `' '.join(ws)`. */
  function JoinSpace(ws: seq<string>): string {
    if ws == [] then "" else if |ws| == 1 then ws[0] else ws[0] + " " + JoinSpace(ws[1..])
  }

  /** `' '.join(s.split())`: runs of whitespace become one space, ends trimmed. */
  function SplitJoin(s: string): string { JoinSpace(Words(s)) }

  /** Trimmed and single-spaced: the shape of every `' '.join(s.split())` result. */
  predicate IsSpaced(s: string) {
    SingleSpaced(s) && (s == [] || (!IsSpace(s[0]) && !IsSpace(s[|s| - 1])))
  }

  /** A word without white space is spaced. */
  lemma WordIsSpaced(w: string)
    requires forall i :: 0 <= i < |w| ==> !IsSpace(w[i])
    ensures IsSpaced(w)
  {}

  /** Two spaced, non-empty strings joined by one space are spaced. */
  lemma JoinIsSpaced(a: string, b: string)
    requires IsSpaced(a) && IsSpaced(b) && a != [] && b != []
    ensures IsSpaced(a + " " + b)
  {
    var s := a + " " + b;
    forall i | 0 <= i < |s| - 1
      ensures !(IsSpace(s[i]) && IsSpace(s[i + 1]))
    {
      if i < |a| - 1 {
        assert s[i] == a[i] && s[i + 1] == a[i + 1];
      } else if i == |a| - 1 {
        assert s[i] == a[|a| - 1];
      } else if i == |a| {
        assert s[i + 1] == b[0];
      } else {
        assert s[i] == b[i - |a| - 1] && s[i + 1] == b[i - |a|];
      }
    }
    forall i | 0 <= i < |s| && IsSpace(s[i])
      ensures s[i] == ' '
    {
      if i < |a| {
        assert s[i] == a[i];
      } else if i > |a| {
        assert s[i] == b[i - |a| - 1];
      }
    }
    assert s[|s| - 1] == b[|b| - 1];
  }

  /** Every character of every word occurs in `s`. */
  predicate WordsDrawnFrom(ws: seq<string>, s: string) {
    forall i, j :: 0 <= i < |ws| && 0 <= j < |ws[i]| ==> ws[i][j] in s
  }

  lemma {:induction false} WordsAreDrawnFrom(s: string)
    ensures WordsDrawnFrom(Words(s), s)
    decreases |s|
  {
    var t := TrimStart(s);
    if t != [] {
      var n := WordLen(t);
      var u := t[n..];
      assert Words(s) == [t[..n]] + Words(u);
      WordsAreDrawnFrom(u);
      RestDrawnFrom(s, Words(u));
      FirstWordDrawnFrom(s);
      DrawnAppend([t[..n]], Words(u), s);
    }
  }

  /** The first word is drawn from the string. */
  lemma FirstWordDrawnFrom(s: string)
    requires TrimStart(s) != []
    ensures WordsDrawnFrom([TrimStart(s)[..WordLen(TrimStart(s))]], s)
  {
    var t := TrimStart(s);
    var n := WordLen(t);
    assert WordsDrawnFrom([t[..n]], s[|s| - |t|..]) by {
      assert forall j :: 0 <= j < n ==> t[..n][j] == t[j];
    }
    DrawnFromSuffix([t[..n]], s, |s| - |t|);
  }

  /** Words drawn from what follows the first word are drawn from the
      string. */
  lemma RestDrawnFrom(s: string, ws: seq<string>)
    requires TrimStart(s) != []
    requires WordsDrawnFrom(ws, TrimStart(s)[WordLen(TrimStart(s))..])
    ensures WordsDrawnFrom(ws, s)
  {
    var t := TrimStart(s);
    var k := |s| - |t| + WordLen(t);
    assert t[WordLen(t)..] == s[k..];
    DrawnFromSuffix(ws, s, k);
  }

  lemma DrawnFromSuffix(ws: seq<string>, s: string, a: nat)
    requires a <= |s| && WordsDrawnFrom(ws, s[a..])
    ensures WordsDrawnFrom(ws, s)
  {
    forall i, j | 0 <= i < |ws| && 0 <= j < |ws[i]| ensures ws[i][j] in s {
      InSuffix(s, a, ws[i][j]);
    }
  }

  lemma DrawnAppend(a: seq<string>, b: seq<string>, s: string)
    requires WordsDrawnFrom(a, s) && WordsDrawnFrom(b, s)
    ensures WordsDrawnFrom(a + b, s)
  {
    var ws := a + b;
    forall i, j | 0 <= i < |ws| && 0 <= j < |ws[i]| ensures ws[i][j] in s {
      if i >= |a| {
        assert ws[i] == b[i - |a|];
      }
    }
  }

  lemma InSuffix(s: string, a: nat, c: char)
    requires a <= |s| && c in s[a..]
    ensures c in s
  {
    var m :| 0 <= m < |s[a..]| && s[a..][m] == c;
    assert s[a + m] == c;
  }

  lemma {:induction false} JoinSpaceIsSpaced(ws: seq<string>, s: string)
    requires forall i :: 0 <= i < |ws| ==> IsToken(ws[i])
    requires WordsDrawnFrom(ws, s)
    ensures IsSpaced(JoinSpace(ws))
    ensures forall i :: 0 <= i < |JoinSpace(ws)| ==> JoinSpace(ws)[i] == ' ' || JoinSpace(ws)[i] in s
  {
    if |ws| > 1 {
      JoinSpaceIsSpaced(ws[1..], s);
      var w := ws[0];
      var rest := JoinSpace(ws[1..]);
      var r := w + " " + rest;
      assert r == JoinSpace(ws);
      forall i | 0 <= i < |r| ensures r[i] == ' ' || r[i] in s {
        if i < |w| {
          assert r[i] == ws[0][i];
        } else if i > |w| {
          assert r[i] == rest[i - |w| - 1];
        }
      }
      forall i | 0 <= i < |r| - 1 ensures !(IsSpace(r[i]) && IsSpace(r[i + 1])) {
        if i + 1 < |w| {
        } else if i + 1 == |w| {
        } else if i == |w| {
          assert r[i + 1] == rest[0];
        } else {
          assert r[i] == rest[i - |w| - 1] && r[i + 1] == rest[i - |w|];
        }
      }
      forall i | 0 <= i < |r| && IsSpace(r[i]) ensures r[i] == ' ' {
        if i > |w| {
          assert r[i] == rest[i - |w| - 1];
        }
      }
    } else if |ws| == 1 {
      assert JoinSpace(ws) == ws[0];
      assert forall j :: 0 <= j < |ws[0]| ==> ws[0][j] in s;
    }
  }

  /** `' '.join(s.split())` is trimmed and single-spaced, and every character
      of it is a space or a character of `s`. */
  lemma SplitJoinIsSpaced(s: string)
    ensures IsSpaced(SplitJoin(s))
    ensures forall i :: 0 <= i < |SplitJoin(s)| ==> SplitJoin(s)[i] == ' ' || SplitJoin(s)[i] in s
  {
    WordsAreDrawnFrom(s);
    WordsAreTokens(s);
    JoinSpaceIsSpaced(Words(s), s);
  }

  lemma TrimStartSkipsSpace(c: char, s: string)
    requires IsSpace(c)
    ensures TrimStart([c] + s) == TrimStart(s)
  {
    assert ([c] + s)[1..] == s;
  }

  lemma {:induction false} WordLenOfToken(w: string, rest: string)
    requires IsToken(w)
    requires rest == [] || IsSpace(rest[0])
    ensures WordLen(w + rest) == |w|
    decreases |w|
  {
    if |w| > 1 {
      assert (w + rest)[1..] == w[1..] + rest;
      WordLenOfToken(w[1..], rest);
    } else {
      assert (w + rest)[1..] == rest;
    }
  }

  /** Splitting a joined list of words gives the words back. */
  lemma {:induction false} WordsOfJoin(ws: seq<string>)
    requires forall i :: 0 <= i < |ws| ==> IsToken(ws[i])
    ensures Words(JoinSpace(ws)) == ws
  {
    if ws == [] {
    } else if |ws| == 1 {
      WordsOfToken(ws[0]);
    } else {
      WordsOfJoin(ws[1..]);
      WordsOfTokenThenSpace(ws[0], JoinSpace(ws[1..]));
    }
  }

  /** A single word splits into itself. */
  lemma WordsOfToken(w: string)
    requires IsToken(w)
    ensures Words(w) == [w]
  {
    assert TrimStart(w) == w;
    WordLenOfToken(w, "");
    assert w + "" == w;
    assert w[|w|..] == [];
  }

  /** A word, a space and a rest split into the word and the rest's words. */
  lemma WordsOfTokenThenSpace(w: string, rest: string)
    requires IsToken(w)
    ensures Words(w + " " + rest) == [w] + Words(rest)
  {
    var s := w + " " + rest;
    assert s == w + (" " + rest);
    assert TrimStart(s) == s;
    WordLenOfToken(w, " " + rest);
    assert s[..|w|] == w;
    assert s[|w|..] == [' '] + rest;
    TrimStartSkipsSpace(' ', rest);
    assert Words(s[|w|..]) == Words(rest);
  }

  /** `' '.join(s.split())` is idempotent. */
  lemma SplitJoinIdempotent(s: string)
    ensures SplitJoin(SplitJoin(s)) == SplitJoin(s)
  {
    WordsAreTokens(s);
    WordsOfJoin(Words(s));
  }

  /** A trimmed, single-spaced string is its own `' '.join(s.split())`. */
  lemma {:induction false} SplitJoinOfSpaced(s: string)
    requires IsSpaced(s)
    ensures SplitJoin(s) == s
    decreases |s|
  {
    if s != [] {
      var n := WordLen(s);
      var w := s[..n];
      assert IsToken(w) by {
        forall j | 0 <= j < n ensures !IsSpace(w[j]) {
          assert w[j] == s[j];
        }
      }
      if n == |s| {
        assert w == s;
        WordsOfToken(s);
      } else {
        var rest := s[n + 1..];
        assert s == w + " " + rest;
        assert IsSpaced(rest) by {
          forall i | 0 <= i < |rest| ensures rest[i] == s[n + 1 + i] {}
        }
        SplitJoinOfSpaced(rest);
        WordsOfTokenThenSpace(w, rest);
        assert Words(rest) != [];
      }
    }
  }

  /** A spaced string never contains two adjacent spaces. */
  lemma SpacedHasNoDoubleSpace(s: string)
    requires SingleSpaced(s)
    ensures !Contains(s, "  ")
  {
    ContainsAt(s, "  ");
    forall i: nat ensures !OccursAt(s, "  ", i) {
      if i + 2 <= |s| {
        assert s[i..i + 2][0] == s[i] && s[i..i + 2][1] == s[i + 1];
      }
    }
  }

  /** `str.split()` only looks past the leading whitespace. */
  lemma WordsOfSameTrim(a: string, b: string)
    requires TrimStart(a) == TrimStart(b)
    ensures Words(a) == Words(b)
  {}

  lemma {:induction false} TrimStartOfSpacePrefix(sp: string, s: string)
    requires forall i :: 0 <= i < |sp| ==> IsSpace(sp[i])
    ensures TrimStart(sp + s) == TrimStart(s)
    decreases |sp|
  {
    if sp == [] {
      assert sp + s == s;
    } else {
      assert (sp + s)[1..] == sp[1..] + s;
      TrimStartOfSpacePrefix(sp[1..], s);
    }
  }

  lemma WordsOfSpacePrefix(sp: string, s: string)
    requires forall i :: 0 <= i < |sp| ==> IsSpace(sp[i])
    ensures Words(sp + s) == Words(s)
  {
    TrimStartOfSpacePrefix(sp, s);
    WordsOfSameTrim(sp + s, s);
  }

  lemma {:induction false} TrimStartOfSpaceSuffix(s: string, sp: string)
    requires forall i :: 0 <= i < |sp| ==> IsSpace(sp[i])
    ensures TrimStart(s + sp) == (if TrimStart(s) == [] then [] else TrimStart(s) + sp)
    decreases |s|
  {
    if s == [] {
      TrimStartAllSpace(sp);
      assert s + sp == sp;
    } else if IsSpace(s[0]) {
      assert (s + sp)[1..] == s[1..] + sp;
      TrimStartOfSpaceSuffix(s[1..], sp);
    } else {
    }
  }

  /** A trailing blank does not survive `strip()`. */
  lemma TrimSpaceSuffix(v: string)
    ensures Trim(v + " ") == Trim(v)
  {
    assert IsSpace(" "[0]);
    TrimStartOfSpaceSuffix(v, " ");
    var t := TrimStart(v);
    if t != [] {
      TrimEndOfSpaceSnoc(t, ' ');
      assert t + " " == t + [' '];
    }
  }

  lemma TrimEndOfSpaceSnoc(t: string, c: char)
    requires IsSpace(c)
    ensures TrimEnd(t + [c]) == TrimEnd(t)
  {
    assert (t + [c])[..|t|] == t;
  }

  lemma {:induction false} TrimStartAllSpace(sp: string)
    requires forall i :: 0 <= i < |sp| ==> IsSpace(sp[i])
    ensures TrimStart(sp) == []
    decreases |sp|
  {
    if sp != [] {
      TrimStartAllSpace(sp[1..]);
    }
  }

  lemma {:induction false} WordLenOfSpaceSuffix(t: string, sp: string)
    requires forall i :: 0 <= i < |sp| ==> IsSpace(sp[i])
    ensures WordLen(t + sp) == WordLen(t)
    decreases |t|
  {
    if t == [] {
      assert t + sp == sp;
    } else if !IsSpace(t[0]) {
      assert (t + sp)[1..] == t[1..] + sp;
      WordLenOfSpaceSuffix(t[1..], sp);
    }
  }

  lemma {:induction false} WordsOfSpaceSuffix(s: string, sp: string)
    requires forall i :: 0 <= i < |sp| ==> IsSpace(sp[i])
    ensures Words(s + sp) == Words(s)
    decreases |s|
  {
    TrimStartOfSpaceSuffix(s, sp);
    var t := TrimStart(s);
    if t == [] {
      assert TrimStart(s + sp) == [];
    } else {
      var n := WordLen(t);
      var t' := t + sp;
      assert TrimStart(s + sp) == t';
      WordLenOfSpaceSuffix(t, sp);
      assert WordLen(t') == n;
      WordsUnfold(s + sp, t');
      WordsUnfold(s, t);
      SplitAppend(t, sp, n);
      WordsOfSpaceSuffix(t[n..], sp);
    }
  }

  /** Cutting `t + u` inside `t` cuts `t` and keeps `u` whole. */
  lemma SplitAppend(t: string, u: string, n: nat)
    requires n <= |t|
    ensures (t + u)[..n] == t[..n] && (t + u)[n..] == t[n..] + u
  {}

  /** One step of `Words` once the leading whitespace is known to be gone. */
  lemma WordsUnfold(x: string, t: string)
    requires TrimStart(x) == t && t != []
    ensures Words(x) == [t[..WordLen(t)]] + Words(t[WordLen(t)..])
  {}

  // ---------------------------------------------------------------- Python str.replace

  /** `s.replace(pat, rep)`: every non-overlapping occurrence, left to right. */
  function ReplaceAll(s: string, pat: string, rep: string): string
    requires pat != []
    decreases |s|
  {
    if |s| < |pat| then s
    else if s[..|pat|] == pat then rep + ReplaceAll(s[|pat|..], pat, rep)
    else [s[0]] + ReplaceAll(s[1..], pat, rep)
  }

  lemma {:induction false} ReplaceAllAbsent(s: string, pat: string, rep: string)
    requires pat != [] && !Contains(s, pat)
    ensures ReplaceAll(s, pat, rep) == s
    decreases |s|
  {
    if |s| >= |pat| {
      ReplaceAllAbsent(s[1..], pat, rep);
    }
  }

  /** Where no position both starts with the pattern's first character and
      ends with its last, nothing is replaced. */
  lemma {:induction false} ReplaceAllNoMatch(s: string, pat: string, rep: string)
    requires pat != []
    requires forall i :: 0 <= i <= |s| - |pat| ==> s[i] != pat[0] || s[i + |pat| - 1] != pat[|pat| - 1]
    ensures ReplaceAll(s, pat, rep) == s
    decreases |s|
  {
    if |s| >= |pat| {
      assert s[..|pat|][0] == s[0] && s[..|pat|][|pat| - 1] == s[|pat| - 1];
      forall i | 0 <= i <= |s[1..]| - |pat|
        ensures s[1..][i] != pat[0] || s[1..][i + |pat| - 1] != pat[|pat| - 1]
      {
        assert s[1..][i] == s[i + 1] && s[1..][i + |pat| - 1] == s[i + |pat|];
      }
      ReplaceAllNoMatch(s[1..], pat, rep);
    }
  }

  /** A string that starts with the pattern has its first occurrence there. */
  lemma ReplaceAllPrefix(pat: string, rest: string, rep: string)
    requires pat != []
    ensures ReplaceAll(pat + rest, pat, rep) == rep + ReplaceAll(rest, pat, rep)
  {
    assert (pat + rest)[..|pat|] == pat && (pat + rest)[|pat|..] == rest;
  }

  /** Replacing a single character works piece by piece. */
  lemma {:induction false} ReplaceAllCharConcat(a: string, b: string, c: char, rep: string)
    ensures ReplaceAll(a + b, [c], rep) == ReplaceAll(a, [c], rep) + ReplaceAll(b, [c], rep)
    decreases |a|
  {
    if a == [] {
      assert a + b == b;
    } else {
      assert (a + b)[1..] == a[1..] + b;
      assert (a + b)[..1] == a[..1];
      ReplaceAllCharConcat(a[1..], b, c, rep);
    }
  }

  lemma IndexAfter(x: string, y: string, k: int)
    requires |x| <= k < |x| + |y|
    ensures (x + y)[k] == y[k - |x|]
  {}

  /** A pattern at the front, with no further occurrence, is replaced once. */
  lemma ReplacePrefixOnly(pat: string, t: string, rep: string)
    requires pat != []
    requires forall i :: 0 <= i <= |t| - |pat| ==> t[i] != pat[0] || t[i + |pat| - 1] != pat[|pat| - 1]
    ensures ReplaceAll(pat + t, pat, rep) == rep + t
  {
    ReplaceAllPrefix(pat, t, rep);
    ReplaceAllNoMatch(t, pat, rep);
  }

  /** The one separator character between two parts free of it is replaced. */
  lemma ReplaceSeparator(a: string, b: string, c: char, rep: string)
    requires forall i :: 0 <= i < |a| ==> a[i] != c
    requires forall i :: 0 <= i < |b| ==> b[i] != c
    ensures ReplaceAll(a + [c] + b, [c], rep) == a + rep + b
  {
    assert a + [c] + b == a + ([c] + b);
    ReplaceAllCharConcat(a, [c] + b, c, rep);
    ReplaceAllPrefix([c], b, rep);
    ReplaceAllNoMatch(a, [c], rep);
    ReplaceAllNoMatch(b, [c], rep);
  }

  // ---------------------------------------------------------------- the standalone word "and"

  /** The first three characters spell "and" in any letter case. */
  predicate SpellsAnd(s: string)
    requires |s| >= 3
  {
    LowerChar(s[0]) == 'a' && LowerChar(s[1]) == 'n' && LowerChar(s[2]) == 'd'
  }

  /** `\band\b` (case-insensitive) matches at the start of `s`, where `prevWord`
      says whether the character before `s` is a word character. */
  predicate AndAtStart(s: string, prevWord: bool) {
    !prevWord && |s| >= 3 && SpellsAnd(s) && (|s| == 3 || !IsWordChar(s[3]))
  }

  /** `\band\b` matches at position `i` of `s`. */
  predicate StandaloneAndAt(s: string, i: nat)
    requires i <= |s|
  {
    AndAtStart(s[i..], i > 0 && IsWordChar(s[i - 1]))
  }

  /** Replacement of every standalone "and" (any case) by `&`, scanning left to
      right; the boundary test always looks at the original characters. */
  function ReplaceAndFrom(s: string, prevWord: bool): (r: string)
    ensures |r| <= |s|
    ensures forall i :: 0 <= i < |r| ==> r[i] == '&' || r[i] in s
    decreases |s|
  {
    if s == [] then []
    else if AndAtStart(s, prevWord) then "&" + ReplaceAndFrom(s[3..], true)
    else [s[0]] + ReplaceAndFrom(s[1..], IsWordChar(s[0]))
  }

  function ReplaceAnd(s: string): string { ReplaceAndFrom(s, false) }

  /** No standalone "and" anywhere in `s`. */
  predicate NoAndFrom(s: string, prevWord: bool)
    decreases |s|
  {
    s == [] || (!AndAtStart(s, prevWord) && NoAndFrom(s[1..], IsWordChar(s[0])))
  }

  predicate HasNoStandaloneAnd(s: string) { NoAndFrom(s, false) }

  /** The recursive predicate says exactly: no position holds a standalone "and". */
  lemma {:induction false} NoAndFromIsPositional(s: string, prevWord: bool)
    ensures NoAndFrom(s, prevWord) <==>
            (s == [] || !AndAtStart(s, prevWord)) &&
            forall i :: 0 < i < |s| ==> !StandaloneAndAt(s, i)
    decreases |s|
  {
    if s != [] {
      var t := s[1..];
      var w := IsWordChar(s[0]);
      NoAndFromIsPositional(t, w);
      forall i | 1 < i < |s| ensures StandaloneAndAt(s, i) == StandaloneAndAt(t, i - 1) {
        assert s[i..] == t[i - 1..];
        assert s[i - 1] == t[i - 2];
      }
      if |s| > 1 {
        assert StandaloneAndAt(s, 1) == AndAtStart(t, w) by {
          assert s[1..] == t;
        }
      }
      if NoAndFrom(s, prevWord) {
        forall i | 0 < i < |s| ensures !StandaloneAndAt(s, i) {
          if i > 1 {
            assert !StandaloneAndAt(t, i - 1);
          }
        }
      }
      if !AndAtStart(s, prevWord) && forall i :: 0 < i < |s| ==> !StandaloneAndAt(s, i) {
        forall j | 0 < j < |t| ensures !StandaloneAndAt(t, j) {
          assert !StandaloneAndAt(s, j + 1);
        }
        if t != [] {
          assert !StandaloneAndAt(s, 1);
        }
      }
    }
  }

  lemma HasNoStandaloneAndMeans(s: string)
    ensures HasNoStandaloneAnd(s) <==> forall i :: 0 <= i < |s| ==> !StandaloneAndAt(s, i)
  {
    NoAndFromIsPositional(s, false);
    if s != [] {
      assert s[0..] == s;
      assert StandaloneAndAt(s, 0) == AndAtStart(s, false);
    }
  }

  /** A standalone "and" never straddles a space, so the check splits there. */
  lemma {:induction false} NoAndAcrossSpace(a: string, b: string, prevWord: bool)
    requires a != [] && a[|a| - 1] == ' '
    requires NoAndFrom(a, prevWord) && NoAndFrom(b, false)
    ensures NoAndFrom(a + b, prevWord)
    decreases |a|
  {
    var s := a + b;
    assert s[1..] == a[1..] + b;
    if |a| == 1 {
      assert s[1..] == b;
    } else {
      NoAndAcrossSpace(a[1..], b, IsWordChar(a[0]));
      if |a| >= 4 {
        assert s[..4] == a[..4];
      } else {
        assert s[|a| - 1] == ' ';
      }
    }
  }

  /** `\band\b` matches at position `i` of `s`, spelled out by index. */
  predicate AndMatchAt(s: string, i: nat) {
    && i + 3 <= |s|
    && (i == 0 || !IsWordChar(s[i - 1]))
    && LowerChar(s[i]) == 'a' && LowerChar(s[i + 1]) == 'n' && LowerChar(s[i + 2]) == 'd'
    && (i + 3 == |s| || !IsWordChar(s[i + 3]))
  }

  lemma AndMatchAtMeans(s: string, i: nat)
    requires i <= |s|
    ensures AndMatchAt(s, i) <==> StandaloneAndAt(s, i)
  {
    var t := s[i..];
    if i + 3 <= |s| {
      assert t[0] == s[i] && t[1] == s[i + 1] && t[2] == s[i + 2];
      if i + 3 < |s| {
        assert t[3] == s[i + 3];
      }
    }
  }

  /** A string with no index-wise match has no standalone "and". */
  lemma NoAndByPositions(s: string)
    requires forall i: nat :: i < |s| ==> !AndMatchAt(s, i)
    ensures HasNoStandaloneAnd(s)
  {
    forall i | 0 <= i < |s| ensures !StandaloneAndAt(s, i) {
      AndMatchAtMeans(s, i);
    }
    HasNoStandaloneAndMeans(s);
  }

  /** When `s` does not start with a letter a/A, the preceding character is irrelevant. */
  lemma NoAndFromIgnoresPrev(s: string, p: bool, q: bool)
    requires s == [] || LowerChar(s[0]) != 'a'
    ensures NoAndFrom(s, p) == NoAndFrom(s, q)
  {}

  lemma ReplaceAfterWord(s: string)
    requires s != []
    ensures ReplaceAndFrom(s, true) == [s[0]] + ReplaceAndFrom(s[1..], IsWordChar(s[0]))
  {}

  lemma {:induction false} ReplaceAndOfClean(s: string, prevWord: bool)
    requires NoAndFrom(s, prevWord)
    ensures ReplaceAndFrom(s, prevWord) == s
    decreases |s|
  {
    if s != [] {
      ReplaceAndOfClean(s[1..], IsWordChar(s[0]));
    }
  }

  /** After the replacement no standalone "and" is left. */
  lemma {:induction false} ReplaceAndIsClean(s: string, prevWord: bool)
    ensures NoAndFrom(ReplaceAndFrom(s, prevWord), prevWord)
    decreases |s|
  {
    if s == [] {
    } else if AndAtStart(s, prevWord) {
      var x := ReplaceAndFrom(s[3..], true);
      ReplaceAndIsClean(s[3..], true);
      if s[3..] != [] {
        ReplaceAfterWord(s[3..]);
        assert x[0] == s[3];
      }
      NoAndFromIgnoresPrev(x, true, false);
      assert ("&" + x)[1..] == x;
    } else {
      var w := IsWordChar(s[0]);
      var y := ReplaceAndFrom(s[1..], w);
      ReplaceAndIsClean(s[1..], w);
      var r := [s[0]] + y;
      assert r[1..] == y;
      // r keeps the first letters of s for as long as they spell "and"
      if !prevWord && LowerChar(s[0]) == 'a' && |s| >= 3 {
        assert s[1..][1..] == s[2..];
        ReplaceAfterWord(s[1..]);
        if LowerChar(s[1]) == 'n' {
          assert s[2..][1..] == s[3..];
          ReplaceAfterWord(s[2..]);
          if LowerChar(s[2]) == 'd' {
            ReplaceAfterWord(s[3..]);
            assert r[3] == s[3];
          }
        }
      }
    }
  }

  lemma {:induction false} ReplaceAndKeepsBlank(s: string, prevWord: bool)
    ensures Blank(ReplaceAndFrom(s, prevWord)) <==> Blank(s)
    decreases |s|
  {
    if s != [] {
      var r := ReplaceAndFrom(s, prevWord);
      if AndAtStart(s, prevWord) {
        assert r[0] == '&';
      } else {
        ReplaceAndKeepsBlank(s[1..], IsWordChar(s[0]));
        assert r[0] == s[0] && r[1..] == ReplaceAndFrom(s[1..], IsWordChar(s[0]));
        assert Blank(s) <==> IsSpace(s[0]) && Blank(s[1..]);
      }
    }
  }

  /** The replacement leaves a text as it is exactly when it holds no
      standalone "and": every match shortens the text by two characters. */
  lemma {:induction false} ReplaceAndChangesIff(s: string, prevWord: bool)
    ensures ReplaceAndFrom(s, prevWord) == s <==> NoAndFrom(s, prevWord)
    decreases |s|
  {
    if NoAndFrom(s, prevWord) {
      ReplaceAndOfClean(s, prevWord);
    } else if !AndAtStart(s, prevWord) {
      ReplaceAndChangesIff(s[1..], IsWordChar(s[0]));
      var r := ReplaceAndFrom(s, prevWord);
      assert r[0] == s[0] && r[1..] == ReplaceAndFrom(s[1..], IsWordChar(s[0]));
    }
  }

  /** The replacement is idempotent. */
  lemma ReplaceAndIdempotent(s: string)
    ensures ReplaceAnd(ReplaceAnd(s)) == ReplaceAnd(s)
  {
    ReplaceAndIsClean(s, false);
    ReplaceAndOfClean(ReplaceAnd(s), false);
  }

  /** Collapsing whitespace cannot create a standalone "and". */
  lemma {:induction false} CollapseKeepsNoAnd(s: string, prevWord: bool, inRun: bool)
    requires NoAndFrom(s, prevWord)
    requires inRun ==> !prevWord
    ensures NoAndFrom(CollapseFrom(s, inRun), prevWord)
    decreases |s|
  {
    if s == [] {
    } else if IsSpace(s[0]) {
      CollapseKeepsNoAnd(s[1..], false, true);
      if !inRun {
        assert (" " + CollapseFrom(s[1..], true))[1..] == CollapseFrom(s[1..], true);
      }
    } else {
      var w := IsWordChar(s[0]);
      var z := CollapseFrom(s[1..], false);
      CollapseKeepsNoAnd(s[1..], w, false);
      var r := [s[0]] + z;
      assert r[1..] == z;
      // r keeps the first letters of s for as long as they spell "and"
      if !prevWord && LowerChar(s[0]) == 'a' && |s| >= 3 {
        assert s[1..][1..] == s[2..];
        var z2 := CollapseFrom(s[2..], false);
        if !IsSpace(s[1]) {
          assert z == [s[1]] + z2;
          if !IsSpace(s[2]) {
            assert s[2..][1..] == s[3..];
            assert z2 == [s[2]] + CollapseFrom(s[3..], false);
            if LowerChar(s[1]) == 'n' && LowerChar(s[2]) == 'd' {
              assert s[3..][1..] == s[4..];
              assert CollapseFrom(s[3..], false) == [s[3]] + CollapseFrom(s[4..], false);
              assert r[3] == s[3];
            }
          }
        }
      }
    }
  }

  lemma {:induction false} TrimStartKeepsNoAnd(s: string)
    requires NoAndFrom(s, false)
    ensures NoAndFrom(TrimStart(s), false)
    decreases |s|
  {
    if s != [] && IsSpace(s[0]) {
      TrimStartKeepsNoAnd(s[1..]);
    }
  }

  /** Dropping a final non-word character cannot create a standalone "and". */
  lemma {:induction false} DropLastKeepsNoAnd(s: string, prevWord: bool)
    requires s != [] && !IsWordChar(s[|s| - 1])
    requires NoAndFrom(s, prevWord)
    ensures NoAndFrom(s[..|s| - 1], prevWord)
    decreases |s|
  {
    var t := s[..|s| - 1];
    if t != [] {
      assert t[1..] == s[1..][..|s[1..]| - 1];
      DropLastKeepsNoAnd(s[1..], IsWordChar(s[0]));
      if |t| >= 3 {
        assert t[0] == s[0] && t[1] == s[1] && t[2] == s[2];
        if |t| > 3 {
          assert t[3] == s[3];
        }
      }
    }
  }

  lemma {:induction false} TrimEndKeepsNoAnd(s: string, prevWord: bool)
    requires NoAndFrom(s, prevWord)
    ensures NoAndFrom(TrimEnd(s), prevWord)
    decreases |s|
  {
    if s != [] && IsSpace(s[|s| - 1]) {
      DropLastKeepsNoAnd(s, prevWord);
      TrimEndKeepsNoAnd(s[..|s| - 1], prevWord);
    }
  }

  lemma TrimKeepsNoAnd(s: string)
    requires HasNoStandaloneAnd(s)
    ensures HasNoStandaloneAnd(Trim(s))
  {
    TrimStartKeepsNoAnd(s);
    TrimEndKeepsNoAnd(TrimStart(s), false);
  }

  // ---------------------------------------------------------------- title case

  /** Position `i` starts a word: `\b\w`. */
  predicate WordStartAt(s: string, i: nat)
    requires i < |s|
  {
    IsWordChar(s[i]) && (i == 0 || !IsWordChar(s[i - 1]))
  }

  /** `replace(/\b\w/g, (c) => c.toUpperCase())`: the first character of every
      word is upper-cased, everything else is kept. */
  function TitleCase(s: string): string {
    seq(|s|, i requires 0 <= i < |s| => if WordStartAt(s, i) then UpperChar(s[i]) else s[i])
  }

  /** Title-casing keeps the length, leaves no lower-case letter at the start
      of a word and changes nothing else. */
  lemma TitleCaseMeans(s: string)
    ensures |TitleCase(s)| == |s|
    ensures forall i :: 0 <= i < |s| ==>
              if WordStartAt(s, i) then !IsLowerLetter(TitleCase(s)[i]) else TitleCase(s)[i] == s[i]
  {}

  /** Title-casing twice is title-casing once. */
  lemma TitleCaseIdempotent(s: string)
    ensures TitleCase(TitleCase(s)) == TitleCase(s)
  {
    var t := TitleCase(s);
    forall i | 0 <= i < |s| ensures WordStartAt(t, i) == WordStartAt(s, i) {}
  }

  /** Lower-casing forgets what title-casing did. */
  lemma LowerOfTitleCase(s: string)
    ensures Lower(TitleCase(s)) == Lower(s)
  {}
}
