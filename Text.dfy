/**
  * String primitives with the semantics of the Python and JavaScript
  * built-ins the system relies on: `str.split()`, `str.split(sep)`,
  * `str.strip(chars)`, `sep.join(parts)`, `pat in s`, and JavaScript's
  * `String.prototype.trim`. Strings are sequences of Unicode scalar values.
  */
module Text {

  import opened Common

  /** Characters for which Python's `str.isspace()` holds; `str.split()` and
      `str.strip()` without arguments treat exactly these as whitespace. */
  const PyWhitespace: set<char> :=
    {'\t', '\n', '\U{000B}', '\U{000C}', '\r',
     '\U{001C}', '\U{001D}', '\U{001E}', '\U{001F}', ' ',
     '\U{0085}', '\U{00A0}', '\U{1680}',
     '\U{2000}', '\U{2001}', '\U{2002}', '\U{2003}', '\U{2004}', '\U{2005}',
     '\U{2006}', '\U{2007}', '\U{2008}', '\U{2009}', '\U{200A}',
     '\U{2028}', '\U{2029}', '\U{202F}', '\U{205F}', '\U{3000}'}

  /** Characters JavaScript's `String.prototype.trim` removes: WhiteSpace and
      LineTerminator of ECMA-262. Unlike Python it includes U+FEFF and
      excludes U+001C..U+001F and U+0085. */
  const JsWhitespace: set<char> :=
    {'\t', '\n', '\U{000B}', '\U{000C}', '\r', ' ', '\U{00A0}', '\U{1680}',
     '\U{2000}', '\U{2001}', '\U{2002}', '\U{2003}', '\U{2004}', '\U{2005}',
     '\U{2006}', '\U{2007}', '\U{2008}', '\U{2009}', '\U{200A}',
     '\U{2028}', '\U{2029}', '\U{202F}', '\U{205F}', '\U{3000}', '\U{FEFF}'}

  // ---------------------------------------------------------------------
  // Substring search: Python `pat in s` and `s.find(pat)`
  // ---------------------------------------------------------------------

  /** `pat` occurs in `s` starting at index `i`. */
  predicate OccursAt(s: string, pat: string, i: nat)
  {
    i + |pat| <= |s| && forall j :: 0 <= j < |pat| ==> s[i + j] == pat[j]
  }

  /** An occurrence in a suffix is an occurrence in the whole string. */
  lemma OccursShift(s: string, pat: string, d: nat, j: nat)
    requires d <= |s|
    ensures OccursAt(s[d..], pat, j) <==> OccursAt(s, pat, d + j)
  {

  }

  /** An occurrence cuts `s` into the text before it, `pat`, and the rest. */
  lemma OccursSplit(s: string, pat: string, i: nat)
    requires OccursAt(s, pat, i)
    ensures s == s[..i] + pat + s[i + |pat|..]
  {
  }

  /** The leftmost index at which a non-empty `pat` occurs in `s`, as
      Python's `s.find(pat)` (with `None` for -1). */
  function IndexOf(s: string, pat: string): (r: Option<nat>)
    requires pat != []
    ensures r.Some? ==> r.value + |pat| <= |s|
    decreases |s|
  {
    if |s| < |pat| then None
    else if OccursAt(s, pat, 0) then Some(0)
    else
      match IndexOf(s[1..], pat)
      case None => None
      case Some(j) => Some(j + 1)
  }

  /** The index found is an occurrence with none before it, and no index
      means no occurrence anywhere. */
  lemma {:induction false} IndexOfSpec(s: string, pat: string)
    requires pat != []
    ensures IndexOf(s, pat).Some? ==>
      OccursAt(s, pat, IndexOf(s, pat).value) &&
      forall k: nat :: k < IndexOf(s, pat).value ==> !OccursAt(s, pat, k)
    ensures IndexOf(s, pat).None? ==> forall k: nat :: !OccursAt(s, pat, k)
    decreases |s|
  {
    if |s| >= |pat| && !OccursAt(s, pat, 0) {
      IndexOfSpec(s[1..], pat);
      forall k: nat | 1 <= k
        ensures OccursAt(s, pat, k) <==> OccursAt(s[1..], pat, k - 1)
      {
        OccursShift(s, pat, 1, k - 1);
      }
    }
  }

  /** Python's `pat in s` for a non-empty `pat`. */
  predicate Contains(s: string, pat: string)
    requires pat != []
  {
    IndexOf(s, pat).Some?
  }

  /** `Contains` is exactly "occurs somewhere". */
  lemma ContainsIff(s: string, pat: string)
    requires pat != []
    ensures Contains(s, pat) <==> exists k: nat :: OccursAt(s, pat, k)
  {
    IndexOfSpec(s, pat);
  }

  // ---------------------------------------------------------------------
  // Python `s.split(sep)`, `sep.join(parts)` and `s.split(sep)[-1]`
  // ---------------------------------------------------------------------

  /** Python's `s.split(sep)` for a non-empty `sep`: cut at the leftmost
      occurrence, then continue on the rest (occurrences never overlap). */
  function SplitOn(s: string, sep: string): (parts: seq<string>)
    requires sep != []
    ensures |parts| >= 1
    decreases |s|
  {
    match IndexOf(s, sep)
    case None => [s]
    case Some(i) => [s[..i]] + SplitOn(s[i + |sep|..], sep)
  }

  /** The text before the leftmost occurrence does not contain `sep`. */
  lemma BeforeFirstFree(s: string, sep: string, i: nat)
    requires sep != [] && IndexOf(s, sep) == Some(i)
    ensures !Contains(s[..i], sep)
  {
    IndexOfSpec(s, sep);
    IndexOfSpec(s[..i], sep);
    forall k: nat | OccursAt(s[..i], sep, k)
      ensures OccursAt(s, sep, k)
    {
      forall j | 0 <= j < |sep|
        ensures s[k + j] == sep[j]
      {
        assert s[..i][k + j] == s[k + j];
      }
    }
  }

  /** No part of `split(sep)` contains `sep`. */
  lemma {:induction false} SplitOnFree(s: string, sep: string)
    requires sep != []
    ensures forall i :: 0 <= i < |SplitOn(s, sep)| ==> !Contains(SplitOn(s, sep)[i], sep)
    decreases |s|
  {
    match IndexOf(s, sep)
    case None =>
      assert SplitOn(s, sep) == [s];
    case Some(i) =>
      var tail := s[i + |sep|..];
      SplitOnFree(tail, sep);
      BeforeFirstFree(s, sep, i);
      var parts, rest := SplitOn(s, sep), SplitOn(tail, sep);
      assert parts == [s[..i]] + rest;
      forall j | 0 <= j < |parts|
        ensures !Contains(parts[j], sep)
      {
        if j == 0 {
          assert parts[0] == s[..i];
          assert !Contains(s[..i], sep);
        } else {
          assert parts[j] == rest[j - 1];
          assert !Contains(rest[j - 1], sep);
        }
      }
  }

  /** Python's `sep.join(parts)`. */
  function JoinWith(parts: seq<string>, sep: string): string
  {
    if |parts| == 0 then ""
    else if |parts| == 1 then parts[0]
    else parts[0] + sep + JoinWith(parts[1..], sep)
  }

  /** Splitting and joining on the same separator gives back the input. */
  lemma {:induction false} JoinSplit(s: string, sep: string)
    requires sep != []
    ensures JoinWith(SplitOn(s, sep), sep) == s
    decreases |s|
  {
    match IndexOf(s, sep)
    case None =>
    case Some(i) =>
      var tail := s[i + |sep|..];
      var parts, rest := SplitOn(s, sep), SplitOn(tail, sep);
      JoinSplit(tail, sep);
      assert parts == [s[..i]] + rest;
      assert parts[1..] == rest;
      assert JoinWith(parts, sep) == s[..i] + sep + JoinWith(rest, sep);
      IndexOfSpec(s, sep);
      OccursSplit(s, sep, i);
  }

  /** Python's `s.split(sep)[-1]`: what follows the last cut that
      `s.split(sep)` makes, or all of `s` when `sep` does not occur. */
  function LastPiece(s: string, sep: string): string
    requires sep != []
    decreases |s|
  {
    match IndexOf(s, sep)
    case None => s
    case Some(i) => LastPiece(s[i + |sep|..], sep)
  }

  /** The last piece never contains the separator. */
  lemma {:induction false} LastPieceFree(s: string, sep: string)
    requires sep != []
    ensures !Contains(LastPiece(s, sep), sep)
    decreases |s|
  {
    match IndexOf(s, sep)
    case None =>
    case Some(i) =>
      LastPieceFree(s[i + |sep|..], sep);
  }

  /** The last piece is a suffix of `s`, and all of `s` when `sep` does not
      occur. */
  lemma {:induction false} LastPieceSuffix(s: string, sep: string)
    requires sep != []
    ensures !Contains(s, sep) ==> LastPiece(s, sep) == s
    ensures |LastPiece(s, sep)| <= |s|
    ensures LastPiece(s, sep) == s[|s| - |LastPiece(s, sep)|..]
    decreases |s|
  {
    match IndexOf(s, sep)
    case None =>
    case Some(i) =>
      var t := s[i + |sep|..];
      LastPieceSuffix(t, sep);
      var r := LastPiece(t, sep);
      assert LastPiece(s, sep) == r;
      assert t[|t| - |r|..] == s[|s| - |r|..];
  }

  /** When `sep` occurs, the last piece directly follows an occurrence. */
  lemma {:induction false} LastPieceAfterSep(s: string, sep: string)
    requires sep != [] && Contains(s, sep)
    ensures |LastPiece(s, sep)| + |sep| <= |s|
    ensures OccursAt(s, sep, |s| - |LastPiece(s, sep)| - |sep|)
    decreases |s|
  {
    var i := IndexOf(s, sep).value;
    var t := s[i + |sep|..];
    if Contains(t, sep) {
      LastPieceAfterSep(t, sep);
      LastPieceStep(s, sep, i);
      OccursEndShift(s, sep, i + |sep|, |LastPiece(t, sep)|);
    } else {
      LastPieceAtFirst(s, sep, i);
    }
  }

  /** After a cut, the last piece is that of the rest. */
  lemma LastPieceStep(s: string, sep: string, i: nat)
    requires sep != [] && IndexOf(s, sep) == Some(i)
    ensures LastPiece(s, sep) == LastPiece(s[i + |sep|..], sep)
  {
  }

  /** The step of `LastPieceAfterSep` when the first `sep` is the last one. */
  lemma LastPieceAtFirst(s: string, sep: string, i: nat)
    requires sep != [] && IndexOf(s, sep) == Some(i) && !Contains(s[i + |sep|..], sep)
    ensures |LastPiece(s, sep)| + |sep| <= |s|
    ensures OccursAt(s, sep, |s| - |LastPiece(s, sep)| - |sep|)
  {
    assert OccursAt(s, sep, i) by {
      IndexOfSpec(s, sep);
    }
    assert LastPiece(s, sep) == s[i + |sep|..] by {
      LastPieceSuffix(s[i + |sep|..], sep);
    }
  }

  /** An occurrence `n` characters before the end of a suffix is one `n`
      characters before the end of the whole string. */
  lemma OccursEndShift(s: string, pat: string, d: nat, n: nat)
    requires d <= |s| && n + |pat| <= |s[d..]| && OccursAt(s[d..], pat, |s[d..]| - n - |pat|)
    ensures n + |pat| <= |s| && OccursAt(s, pat, |s| - n - |pat|)
  {
    var j := |s[d..]| - n - |pat|;
    OccursShift(s, pat, d, j);
    assert d + j == |s| - n - |pat|;
  }

  /** The facts about the last piece together: a suffix free of `sep`, the
      whole string when `sep` does not occur, and otherwise directly after an
      occurrence of `sep`. */
  lemma LastPieceSpec(s: string, sep: string)
    requires sep != []
    ensures |LastPiece(s, sep)| <= |s| && LastPiece(s, sep) == s[|s| - |LastPiece(s, sep)|..]
    ensures !Contains(LastPiece(s, sep), sep)
    ensures !Contains(s, sep) ==> LastPiece(s, sep) == s
    ensures Contains(s, sep) ==>
      |LastPiece(s, sep)| + |sep| <= |s| && OccursAt(s, sep, |s| - |LastPiece(s, sep)| - |sep|)
  {
    LastPieceSuffix(s, sep);
    LastPieceFree(s, sep);
    if Contains(s, sep) {
      LastPieceAfterSep(s, sep);
    }
  }

  /** `LastPiece` is the last element of `SplitOn`. */
  lemma {:induction false} LastPieceIsLastOfSplit(s: string, sep: string)
    requires sep != []
    ensures LastPiece(s, sep) == SplitOn(s, sep)[|SplitOn(s, sep)| - 1]
    decreases |s|
  {
    match IndexOf(s, sep)
    case None =>
      assert SplitOn(s, sep) == [s];
    case Some(i) =>
      var tail := s[i + |sep|..];
      var parts, rest := SplitOn(s, sep), SplitOn(tail, sep);
      LastPieceIsLastOfSplit(tail, sep);
      assert parts == [s[..i]] + rest;
      assert parts[|parts| - 1] == rest[|rest| - 1];
      assert LastPiece(s, sep) == LastPiece(tail, sep);
  }

  /** Python's `split(sep)[-1]` is not "the text after the last occurrence"
      when `sep` can overlap itself: `"/in/in/".split("/in/")` is
      `["", "in/"]`, although `"/in/"` also occurs at index 3. */
  lemma OverlappingSeparator()
    ensures LastPiece("/in/in/", "/in/") == "in/"
    ensures OccursAt("/in/in/", "/in/", 3)
  {
    assert "/in/in/"[..4] == "/in/";
    assert "/in/in/"[4..] == "in/";
    assert IndexOf("/in/in/", "/in/") == Some(0);
    assert IndexOf("in/", "/in/") == None;
    assert "/in/in/"[3..7] == "/in/";
  }

  // ---------------------------------------------------------------------
  // Python `s.strip(chars)` and JavaScript `s.trim()`
  // ---------------------------------------------------------------------

  /** Every character of `t` is in `cs`. */
  predicate AllIn(t: string, cs: set<char>)
  {
    forall k :: 0 <= k < |t| ==> t[k] in cs
  }

  /** Two runs of members of `cs` make one. */
  lemma AllInConcat(a: string, b: string, cs: set<char>)
    requires AllIn(a, cs) && AllIn(b, cs)
    ensures AllIn(a + b, cs)
  {
    forall k | 0 <= k < |a + b|
      ensures (a + b)[k] in cs
    {
      if k < |a| {
        assert (a + b)[k] == a[k];
      } else {
        assert (a + b)[k] == b[k - |a|];
      }
    }
  }

  /** Python's `s.lstrip(chars)` with `chars` given as a set. */
  function StripLeft(s: string, cs: set<char>): (r: string)
    ensures |r| <= |s|
  {
    if s != [] && s[0] in cs then StripLeft(s[1..], cs) else s
  }

  /** `lstrip` removes a prefix made only of `cs`, and what is left does not
      start with a member of `cs`. */
  lemma {:induction false} StripLeftSpec(s: string, cs: set<char>)
    ensures |StripLeft(s, cs)| <= |s|
    ensures s == s[..|s| - |StripLeft(s, cs)|] + StripLeft(s, cs)
    ensures StripLeft(s, cs) == s[|s| - |StripLeft(s, cs)|..]
    ensures AllIn(s[..|s| - |StripLeft(s, cs)|], cs)
    ensures StripLeft(s, cs) == [] || StripLeft(s, cs)[0] !in cs
  {
    if s != [] && s[0] in cs {
      var r := StripLeft(s[1..], cs);
      StripLeftSpec(s[1..], cs);
      assert s[..|s| - |r|] == [s[0]] + s[1..][..|s[1..]| - |r|];
    }
  }

  /** Python's `s.rstrip(chars)` with `chars` given as a set. */
  function StripRight(s: string, cs: set<char>): (r: string)
    ensures |r| <= |s|
  {
    if s != [] && s[|s| - 1] in cs then StripRight(s[..|s| - 1], cs) else s
  }

  /** `rstrip` removes a suffix made only of `cs`, and what is left does not
      end with a member of `cs`. */
  lemma {:induction false} StripRightSpec(s: string, cs: set<char>)
    ensures |StripRight(s, cs)| <= |s|
    ensures s == StripRight(s, cs) + s[|StripRight(s, cs)|..]
    ensures StripRight(s, cs) == s[..|StripRight(s, cs)|]
    ensures AllIn(s[|StripRight(s, cs)|..], cs)
    ensures StripRight(s, cs) == [] || StripRight(s, cs)[|StripRight(s, cs)| - 1] !in cs
  {
    if s != [] && s[|s| - 1] in cs {
      var t, last := s[..|s| - 1], [s[|s| - 1]];
      var r := StripRight(t, cs);
      StripRightSpec(t, cs);
      assert StripRight(s, cs) == r;
      assert s == t + last;
      assert s[|r|..] == t[|r|..] + last;
      AllInConcat(t[|r|..], last, cs);
    }
  }

  /** The first `n` characters after index `i`, and what follows them. */
  lemma SliceOfSuffix(s: string, i: nat, n: nat)
    requires i + n <= |s|
    ensures s[i..][..n] == s[i..i + n] && s[i..][n..] == s[i + n..]
  {
  }

  /** Where the result of `Strip` starts in `s`. */
  function StripStart(s: string, cs: set<char>): nat
  {
    |s| - |StripLeft(s, cs)|
  }

  /** Python's `s.strip(chars)` with `chars` given as a set; JavaScript's
      `s.trim()` is `Strip(s, JsWhitespace)`. */
  function Strip(s: string, cs: set<char>): string
  {
    StripRight(StripLeft(s, cs), cs)
  }

  /** `s` is the characters stripped in front, then the result, then the
      characters stripped behind; everything stripped is in `cs`, and the
      result neither starts nor ends with a member of `cs`. */
  lemma StripSpec(s: string, cs: set<char>)
    ensures StripStart(s, cs) + |Strip(s, cs)| <= |s|
    ensures Strip(s, cs) == s[StripStart(s, cs)..StripStart(s, cs) + |Strip(s, cs)|]
    ensures AllIn(s[..StripStart(s, cs)], cs)
    ensures AllIn(s[StripStart(s, cs) + |Strip(s, cs)|..], cs)
    ensures Strip(s, cs) == [] || (Strip(s, cs)[0] !in cs && Strip(s, cs)[|Strip(s, cs)| - 1] !in cs)
  {
    var left := StripLeft(s, cs);
    StripLeftSpec(s, cs);
    StripRightSpec(left, cs);
    StripCompose(s, cs, left, Strip(s, cs));
  }

  /** A left strip followed by a right strip of what is left. */
  lemma StripCompose(s: string, cs: set<char>, left: string, r: string)
    requires |left| <= |s| && left == s[|s| - |left|..] && AllIn(s[..|s| - |left|], cs)
    requires left == [] || left[0] !in cs
    requires |r| <= |left| && r == left[..|r|] && AllIn(left[|r|..], cs)
    requires r == [] || r[|r| - 1] !in cs
    ensures |s| - |left| + |r| <= |s| && r == s[|s| - |left|..|s| - |left| + |r|]
    ensures AllIn(s[..|s| - |left|], cs) && AllIn(s[|s| - |left| + |r|..], cs)
    ensures r == [] || (r[0] !in cs && r[|r| - 1] !in cs)
  {
    SliceOfSuffix(s, |s| - |left|, |r|);
  }

  /** Stripping leaves nothing exactly when every character is stripped. */
  lemma StripEmptyIff(s: string, cs: set<char>)
    ensures Strip(s, cs) == [] <==> AllIn(s, cs)
  {
    var r := Strip(s, cs);
    var i := StripStart(s, cs);
    StripSpec(s, cs);
    if r == [] {
      assert s == s[..i] + s[i..];
      AllInConcat(s[..i], s[i..], cs);
    } else {
      assert s[i] == r[0];
    }
  }

  /** Stripping twice changes nothing more. */
  lemma StripIdempotent(s: string, cs: set<char>)
    ensures Strip(Strip(s, cs), cs) == Strip(s, cs)
  {
    var r := Strip(s, cs);
    StripSpec(s, cs);
    assert StripLeft(r, cs) == r;
    assert StripRight(r, cs) == r;
  }

  // ---------------------------------------------------------------------
  // Python `s.split()` with no argument
  // ---------------------------------------------------------------------

  /** A token of `str.split()`: non-empty and free of whitespace. */
  predicate IsWord(w: string)
  {
    w != [] && forall k :: 0 <= k < |w| ==> w[k] !in PyWhitespace
  }

  /** Length of the leading run of non-whitespace characters of `s`. */
  function WordLength(s: string): (n: nat)
    ensures n <= |s|
    ensures forall k :: 0 <= k < n ==> s[k] !in PyWhitespace
    ensures n == |s| || s[n] in PyWhitespace
  {
    if s == [] || s[0] in PyWhitespace then 0 else 1 + WordLength(s[1..])
  }

  /** Python's `s.split()`: the maximal runs of non-whitespace, in order. */
  function Words(s: string): (ws: seq<string>)
    ensures forall i :: 0 <= i < |ws| ==> IsWord(ws[i])
    decreases |s|
  {
    if s == [] then []
    else if s[0] in PyWhitespace then Words(s[1..])
    else
      var n := WordLength(s);
      [s[..n]] + Words(s[n..])
  }

  /** The leading run of a string that starts with a non-whitespace
      character is a word. */
  lemma FirstWord(s: string)
    requires s != [] && s[0] !in PyWhitespace
    ensures IsWord(s[..WordLength(s)])
  {
  }

  /** Leading whitespace does not start a word. */
  lemma WordsSkip(s: string)
    requires s != [] && s[0] in PyWhitespace
    ensures Words(s) == Words(s[1..])
  {
  }

  /** A string that starts with a word splits into that word and the words
      after the character that ends it. */
  lemma LeadingWord(s: string)
    requires s != [] && s[0] !in PyWhitespace && WordLength(s) < |s|
    ensures Words(s) == [s[..WordLength(s)]] + Words(s[WordLength(s) + 1..])
  {
    // Dafny finds this unaided, but these steps cut its search several times over.
    var n := WordLength(s);
    var w, rest := s[..n], s[n..];
    assert s == w + rest;
    FirstWord(s);
    WordsCons(w, rest);
    WordsSkip(rest);
    assert rest[1..] == s[n + 1..];
  }

  /** `c` itself, or nothing when it is whitespace. */
  function KeepNonWs(c: char): string
  {
    if c in PyWhitespace then [] else [c]
  }

  /** The non-whitespace characters of `s`, in order. */
  function NonWs(s: string): string
  {
    if s == [] then [] else KeepNonWs(s[0]) + NonWs(s[1..])
  }

  /** The strings of `ws` one after the other. */
  function Concat(ws: seq<string>): string
  {
    if ws == [] then [] else ws[0] + Concat(ws[1..])
  }

  /** Dropping whitespace distributes over concatenation. */
  lemma {:induction false} NonWsAppend(a: string, b: string)
    ensures NonWs(a + b) == NonWs(a) + NonWs(b)
    decreases |a|
  {
    if a == [] {
      assert a + b == b;
    } else {
      var ab := a + b;
      assert ab[0] == a[0] && ab[1..] == a[1..] + b;
      NonWsAppend(a[1..], b);
      assert NonWs(ab) == KeepNonWs(a[0]) + NonWs(a[1..] + b);
    }
  }

  /** A string without whitespace loses nothing. */
  lemma {:induction false} NonWsWord(w: string)
    requires forall k :: 0 <= k < |w| ==> w[k] !in PyWhitespace
    ensures NonWs(w) == w
    decreases |w|
  {
    if w != [] {
      assert KeepNonWs(w[0]) == [w[0]];
      NonWsWord(w[1..]);
      assert [w[0]] + w[1..] == w;
    }
  }

  /** The tokens of `split()`, one after the other, are exactly the
      non-whitespace characters of `s`, in order: no token is dropped,
      reordered or altered. */
  lemma {:induction false} WordsCover(s: string)
    ensures Concat(Words(s)) == NonWs(s)
    decreases |s|
  {
    if s == [] {
    } else if s[0] in PyWhitespace {
      WordsCover(s[1..]);
    } else {
      var n := WordLength(s);
      var w, rest := s[..n], s[n..];
      assert n > 0;
      assert Words(s) == [w] + Words(rest);
      assert Concat([w] + Words(rest)) == w + Concat(Words(rest)) by {
        assert ([w] + Words(rest))[1..] == Words(rest);
      }
      WordsCover(rest);
      assert s == w + rest;
      NonWsAppend(w, rest);
      NonWsWord(w);
    }
  }

  /** A space is whitespace to Python. */
  lemma SpaceIsWhitespace()
    ensures ' ' in PyWhitespace
  {
  }

  /** The first word of `w + rest` is `w` when `w` is a word and `rest` is
      empty or starts with whitespace. */
  lemma WordsCons(w: string, rest: string)
    requires IsWord(w)
    requires rest == [] || rest[0] in PyWhitespace
    ensures Words(w + rest) == [w] + Words(rest)
  {
    var s := w + rest;
    assert forall k :: 0 <= k < |w| ==> s[k] == w[k];
    assert |w| < |s| ==> s[|w|] == rest[0];
    assert WordLength(s) == |w|;
    assert s[0] == w[0];
    assert s[..|w|] == w;
    assert s[|w|..] == rest;
  }

  /** Splitting a space-joined list of words gives the words back. */
  lemma {:induction false} WordsOfJoin(ws: seq<string>)
    requires forall i :: 0 <= i < |ws| ==> IsWord(ws[i])
    ensures Words(JoinWith(ws, " ")) == ws
  {
    if |ws| == 1 {
      WordsCons(ws[0], []);
      assert ws[0] + [] == ws[0];
    } else if |ws| > 1 {
      var rest := JoinWith(ws[1..], " ");
      var tail := " " + rest;
      WordsOfJoin(ws[1..]);
      WordsCons(ws[0], tail);
      assert tail[1..] == rest;
      assert JoinWith(ws, " ") == ws[0] + tail;
    }
  }

  /** A space-joined non-empty list of words starts with the first word's
      first character and ends with the last word's last character. */
  lemma {:induction false} JoinWordsEnds(ws: seq<string>)
    requires |ws| > 0 && forall i :: 0 <= i < |ws| ==> IsWord(ws[i])
    ensures IsWord(ws[0]) && IsWord(ws[|ws| - 1])
    ensures |JoinWith(ws, " ")| > 0 && JoinWith(ws, " ")[0] == ws[0][0]
    ensures JoinWith(ws, " ")[|JoinWith(ws, " ")| - 1] == ws[|ws| - 1][|ws[|ws| - 1]| - 1]
  {
    if |ws| > 1 {
      JoinWordsEnds(ws[1..]);
    }
  }
}
