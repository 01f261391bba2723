/** The two JavaScript string operations the key validator relies on:
    `String.prototype.split` with a one-character separator and
    `String.prototype.trim`. */
module Text {

  /** The characters `trim` strips: ECMAScript's WhiteSpace (tab, vertical
      tab, form feed, the byte-order mark and every space separator) and
      LineTerminator (line feed, carriage return, line and paragraph
      separators). */
  const WhiteSpace: set<char> := {
    '\t', '\n', '\U{000B}', '\U{000C}', '\r', ' ', '\U{00A0}', '\U{1680}',
    '\U{2000}', '\U{2001}', '\U{2002}', '\U{2003}', '\U{2004}', '\U{2005}',
    '\U{2006}', '\U{2007}', '\U{2008}', '\U{2009}', '\U{200A}',
    '\U{2028}', '\U{2029}', '\U{202F}', '\U{205F}', '\U{3000}', '\U{FEFF}'}

  // The trimming functions and their lemmas are stated for any set `ws` of
  // stripped characters; `Trim` instantiates them with `WhiteSpace`.

  /** Every character of `s` at an index in `[lo, hi)` is in `ws`. */
  predicate AllIn(s: string, lo: int, hi: int, ws: set<char>)
  {
    forall k :: lo <= k < hi && 0 <= k < |s| ==> s[k] in ws
  }

  /** The index of the first character of `s` at or after `i` that is not
      in `ws`, or `|s|` when there is none. */
  function LeadEnd(s: string, ws: set<char>, i: nat): (j: nat)
    requires i <= |s|
    ensures i <= j <= |s|
    ensures AllIn(s, i, j, ws)
    ensures j < |s| ==> s[j] !in ws
    decreases |s| - i
  {
    if i < |s| && s[i] in ws then LeadEnd(s, ws, i + 1) else i
  }

  /** The index just past the last character of `s[lo..j]` that is not in
      `ws`, or `lo` when there is none. */
  function TrailStart(s: string, ws: set<char>, lo: nat, j: nat): (k: nat)
    requires lo <= j <= |s|
    ensures lo <= k <= j
    ensures AllIn(s, k, j, ws)
    ensures lo < k ==> s[k - 1] !in ws
    decreases j - lo
  {
    if lo < j && s[j - 1] in ws then TrailStart(s, ws, lo, j - 1) else j
  }

  /** Neither the first nor the last character of `r` is in `ws`. */
  predicate TightIn(r: string, ws: set<char>)
  {
    r != [] ==> r[0] !in ws && r[|r| - 1] !in ws
  }

  /** `r` is the infix `s[i..i + |r|]` of `s`, and everything around it is
      in `ws`. */
  predicate CutOutAt(s: string, r: string, i: int, ws: set<char>)
  {
    0 <= i <= |s| - |r| && r == s[i..i + |r|]
    && AllIn(s, 0, i, ws) && AllIn(s, i + |r|, |s|, ws)
  }

  /** `s` stripped at both ends of the characters in `ws`: a tight infix
      of `s` with only such characters around it. */
  function TrimIn(s: string, ws: set<char>): (r: string)
    ensures TightIn(r, ws)
    ensures CutOutAt(s, r, LeadEnd(s, ws, 0), ws)
  {
    var i := LeadEnd(s, ws, 0);
    s[i..TrailStart(s, ws, i, |s|)]
  }

  /** At most one tight infix of `s` is cut out between such margins, so
      the contract of trimming determines its result completely. */
  lemma CutOutUnique(s: string, ws: set<char>, r1: string, i1: int, r2: string, i2: int)
    requires CutOutAt(s, r1, i1, ws) && TightIn(r1, ws)
    requires CutOutAt(s, r2, i2, ws) && TightIn(r2, ws)
    ensures r1 == r2
  {
    var j1, j2 := i1 + |r1|, i2 + |r2|;
    assert r1 != [] ==> s[i1] == r1[0] && s[j1 - 1] == r1[|r1| - 1];
    assert r2 != [] ==> s[i2] == r2[0] && s[j2 - 1] == r2[|r2| - 1];
  }

  /** `String.prototype.trim`. */
  function Trim(s: string): (r: string)
    ensures |r| <= |s|
    ensures Tight(r)
  {
    TrimIn(s, WhiteSpace)
  }

  /** Does not start or end with white space. */
  predicate Tight(r: string)
  {
    TightIn(r, WhiteSpace)
  }

  /** `trim` cuts out of `s` an infix between two white-space margins. */
  lemma TrimCutsOut(s: string)
    ensures exists i :: CutOutAt(s, Trim(s), i, WhiteSpace)
  {
    assert CutOutAt(s, Trim(s), LeadEnd(s, WhiteSpace, 0), WhiteSpace);
  }

  /** Any tight infix between white-space margins is what `trim` returns. */
  lemma TrimCharacterised(s: string, r: string, i: int)
    requires CutOutAt(s, r, i, WhiteSpace) && Tight(r)
    ensures Trim(s) == r
  {
    CutOutUnique(s, WhiteSpace, r, i, Trim(s), LeadEnd(s, WhiteSpace, 0));
  }

  /** A string with no white space at either end is its own trim. */
  lemma TrimOfTrimmed(s: string)
    requires Tight(s)
    ensures Trim(s) == s
  {
    TrimCharacterised(s, s, 0);
  }

  /** Trimming twice is trimming once. */
  lemma TrimIdempotent(s: string)
    ensures Trim(Trim(s)) == Trim(s)
  {
    TrimOfTrimmed(Trim(s));
  }

  /** The pieces of `s` between the occurrences of `sep`, in order:
      `s.split(sep)` for a one-character separator. There is always at least
      one piece; an empty `s` splits into one empty piece. */
  function Split(s: string, sep: char): (parts: seq<string>)
    ensures |parts| >= 1
    ensures forall i :: 0 <= i < |parts| ==> sep !in parts[i]
  {
    if |s| == 0 then [""]
    else
      var rest := Split(s[1..], sep);
      if s[0] == sep then [""] + rest
      else [[s[0]] + rest[0]] + rest[1..]
  }

  /** `parts.join(sep)`. */
  function Join(parts: seq<string>, sep: char): string
    requires |parts| >= 1
  {
    if |parts| == 1 then parts[0] else parts[0] + [sep] + Join(parts[1..], sep)
  }

  /** The number of occurrences of `c` in `s`. */
  function Occurrences(s: string, c: char): nat
  {
    if |s| == 0 then 0 else (if s[0] == c then 1 else 0) + Occurrences(s[1..], c)
  }

  /** Prepending a character to the first piece prepends it to the join. */
  lemma JoinPrepend(c: char, parts: seq<string>, sep: char)
    requires |parts| >= 1
    ensures Join([[c] + parts[0]] + parts[1..], sep) == [c] + Join(parts, sep)
  {
    var q := [[c] + parts[0]] + parts[1..];
    if |parts| > 1 {
      assert q[1..] == parts[1..];
    }
  }

  /** Joining the pieces back with the separator restores the string. */
  lemma {:induction false} JoinSplit(s: string, sep: char)
    ensures Join(Split(s, sep), sep) == s
  {
    if |s| > 0 {
      var rest := Split(s[1..], sep);
      JoinSplit(s[1..], sep);
      if s[0] == sep {
        assert Split(s, sep)[1..] == rest;
      } else {
        JoinPrepend(s[0], rest, sep);
      }
      assert [s[0]] + s[1..] == s;
    }
  }

  /** There is one more piece than there are separators. */
  lemma {:induction false} SplitCount(s: string, sep: char)
    ensures |Split(s, sep)| == Occurrences(s, sep) + 1
  {
    if |s| > 0 {
      SplitCount(s[1..], sep);
    }
  }

  /** A string without the separator is a single piece. */
  lemma {:induction false} SplitNoSeparator(p: string, sep: char)
    requires sep !in p
    ensures Split(p, sep) == [p]
  {
    if |p| > 0 {
      SplitNoSeparator(p[1..], sep);
      assert [p[0]] + p[1..] == p;
    }
  }

  /** Splitting `p + sep + t`, with no separator inside `p`, yields `p`
      followed by the pieces of `t`. */
  lemma {:induction false} SplitAfterPiece(p: string, t: string, sep: char)
    requires sep !in p
    ensures Split(p + [sep] + t, sep) == [p] + Split(t, sep)
  {
    var s := p + [sep] + t;
    if |p| == 0 {
      assert s[1..] == t;
    } else {
      assert s[1..] == p[1..] + [sep] + t;
      SplitAfterPiece(p[1..], t, sep);
      assert [p[0]] + p[1..] == p;
    }
  }

  /** Splitting undoes joining pieces that do not contain the separator. */
  lemma {:induction false} SplitJoin(parts: seq<string>, sep: char)
    requires |parts| >= 1
    requires forall i :: 0 <= i < |parts| ==> sep !in parts[i]
    ensures Split(Join(parts, sep), sep) == parts
  {
    if |parts| == 1 {
      SplitNoSeparator(parts[0], sep);
    } else {
      SplitJoin(parts[1..], sep);
      SplitAfterPiece(parts[0], Join(parts[1..], sep), sep);
      assert [parts[0]] + parts[1..] == parts;
    }
  }
}
