/**
 * The helpers of pyttslib/utils.py: splitting long text into chunks for an
 * engine with a length limit, and recognising the supported audio file
 * extensions. Whitespace is Python's `str.isspace`, which is also what the
 * regular expression class `\s`, `str.split()` and `str.strip()` use.
 */
module TextUtils {
  import opened Paths

  // ---------------------------------------------------------------------------
  // Whitespace, str.split() and str.strip()

  /** Python's `str.isspace` for one character. */
  predicate IsSpace(c: char)
  {
    ('\t' <= c <= '\r') || ('\U{1C}' <= c <= '\U{20}') || c == '\U{85}' || c == '\U{A0}'
    || c == '\U{1680}' || ('\U{2000}' <= c <= '\U{200A}') || c == '\U{2028}' || c == '\U{2029}'
    || c == '\U{202F}' || c == '\U{205F}' || c == '\U{3000}'
  }

  predicate NoSpace(w: string)
  {
    forall i :: 0 <= i < |w| ==> !IsSpace(w[i])
  }

  predicate AllSpace(w: string)
  {
    forall i :: 0 <= i < |w| ==> IsSpace(w[i])
  }

  /** Length of the run of non-space characters that `s` starts with. */
  function RunLength(s: string): (n: nat)
    ensures n <= |s|
    ensures NoSpace(s[..n])
    ensures n < |s| ==> IsSpace(s[n])
    decreases |s|
  {
    if s == [] || IsSpace(s[0]) then 0
    else
      var m := RunLength(s[1..]);
      assert forall i :: 1 <= i < 1 + m ==> s[i] == s[1..][i - 1];
      1 + m
  }

  /** `s.split()`: the maximal runs of non-whitespace characters, in order. */
  function Words(s: string): seq<string>
    decreases |s|
  {
    if s == [] then []
    else if IsSpace(s[0]) then Words(s[1..])
    else
      var n := RunLength(s);
      [s[..n]] + Words(s[n..])
  }

  /** `s.split()` gives non-empty words without whitespace. */
  lemma {:induction false} WordsShape(s: string)
    ensures forall i :: 0 <= i < |Words(s)| ==> Words(s)[i] != [] && NoSpace(Words(s)[i])
    decreases |s|
  {
    if s != [] {
      if IsSpace(s[0]) {
        WordsShape(s[1..]);
      } else {
        var n := RunLength(s);
        WordsShape(s[n..]);
        WordsAtWord(s);
      }
    }
  }

  lemma {:induction false} RunLengthAppend(a: string, b: string)
    ensures RunLength(a + b) == if RunLength(a) < |a| then RunLength(a) else |a| + RunLength(b)
    decreases |a|
  {
    if a == [] {
      assert a + b == b;
    } else if !IsSpace(a[0]) {
      assert (a + b)[1..] == a[1..] + b;
      RunLengthAppend(a[1..], b);
    }
  }

  lemma {:induction false} WordsOfSpaces(s: string)
    requires AllSpace(s)
    ensures Words(s) == []
    decreases |s|
  {
    if s != [] {
      WordsOfSpaces(s[1..]);
    }
  }

  /** Nothing joins across a boundary that has whitespace on one side. */
  predicate Separated(a: string, b: string)
  {
    a == [] || b == [] || IsSpace(a[|a| - 1]) || IsSpace(b[0])
  }

  lemma {:induction false} WordsAppend(a: string, b: string)
    requires Separated(a, b)
    ensures Words(a + b) == Words(a) + Words(b)
    decreases |a|
  {
    if a == [] {
      assert a + b == b;
    } else if IsSpace(a[0]) {
      var ab := a + b;
      assert ab[0] == a[0];
      assert ab[1..] == a[1..] + b;
      WordsAppend(a[1..], b);
    } else {
      WordsAppendWord(a, b);
    }
  }

  lemma {:induction false} WordsAppendWord(a: string, b: string)
    requires Separated(a, b) && a != [] && !IsSpace(a[0])
    ensures Words(a + b) == Words(a) + Words(b)
    decreases |a|, 1
  {
    var n := RunLength(a);
    RunLengthAppend(a, b);
    AppendCut(a, b, n);
    WordsAtWord(a);
    WordsAtWord(a + b);
    if n < |a| {
      WordsAppend(a[n..], b);
      ConsAssoc(a[..n], Words(a[n..]), Words(b));
    } else {
      WholeWord(a, b);
    }
  }

  /** A string that is one word followed by `b`, which starts with whitespace or is empty. */
  lemma WholeWord(a: string, b: string)
    requires Separated(a, b) && a != [] && RunLength(a) == |a|
    ensures RunLength(b) == 0 && Words(a) == [a] && a[|a|..] + b == b
  {
    var n := |a|;
    assert a[..n] == a;
    assert !IsSpace(a[n - 1]);
    assert a[n..] == [];
  }

  lemma ConsAssoc(w: string, x: seq<string>, y: seq<string>)
    ensures [w] + (x + y) == ([w] + x) + y
  {
  }

  /** `s.split()` on a string that starts with a word. */
  lemma WordsAtWord(s: string)
    requires s != [] && !IsSpace(s[0])
    ensures Words(s) == [s[..RunLength(s)]] + Words(s[RunLength(s)..])
  {
  }

  lemma AppendCut(a: string, b: string, n: nat)
    requires n <= |a|
    ensures (a + b)[..n] == a[..n] && (a + b)[n..] == a[n..] + b
  {
  }

  lemma WordsOfWord(w: string)
    requires w != [] && NoSpace(w)
    ensures Words(w + " ") == [w]
  {
    RunLengthAppend(w, " ");
    var s := w + " ";
    assert RunLength(w) == |w|;
    assert s[..|w|] == w;
    assert s[|w|..] == " ";
    WordsOfSpaces(" ");
  }

  lemma WordsTrailingSpace(s: string)
    ensures Words(s + " ") == Words(s)
  {
    WordsAppend(s, " ");
    WordsOfSpaces(" ");
  }

  /** Drops the leading whitespace (`str.lstrip()`). */
  function TrimStart(s: string): (r: string)
    ensures |r| <= |s| && r == s[|s| - |r|..]
    ensures r == [] || !IsSpace(r[0])
    ensures Words(r) == Words(s)
    decreases |s|
  {
    if s != [] && IsSpace(s[0]) then TrimStart(s[1..]) else s
  }

  /** Drops the trailing whitespace (`str.rstrip()`). */
  function TrimEnd(s: string): (r: string)
    ensures |r| <= |s| && r == s[..|r|]
    ensures r == [] || !IsSpace(r[|r| - 1])
    ensures Words(r) == Words(s)
    decreases |s|
  {
    if s != [] && IsSpace(s[|s| - 1]) then
      var init := s[..|s| - 1];
      assert s == init + [s[|s| - 1]];
      WordsAppend(init, [s[|s| - 1]]);
      WordsOfSpaces([s[|s| - 1]]);
      TrimEnd(init)
    else s
  }

  predicate IsStripped(s: string)
  {
    s == [] || (!IsSpace(s[0]) && !IsSpace(s[|s| - 1]))
  }

  /**
   * `s.strip()`: the result has no whitespace at either end, holds the same
   * words, and is shorter than `s` when `s` ends in whitespace.
   */
  function Strip(s: string): (r: string)
    ensures IsStripped(r)
    ensures Words(r) == Words(s)
    ensures |r| <= |s|
    ensures s != [] && IsSpace(s[|s| - 1]) ==> |r| < |s|
  {
    var u := TrimStart(s);
    var r := TrimEnd(u);
    assert r != [] ==> r[0] == u[0];
    assert u != [] ==> u[|u| - 1] == s[|s| - 1];
    r
  }

  lemma BlankHasNoWords(s: string)
    requires Strip(s) == []
    ensures Words(s) == []
  {
  }

  // ---------------------------------------------------------------------------
  // re.split(r'[.!?][\s]+', text)

  predicate IsTerminator(c: char)
  {
    c == '.' || c == '!' || c == '?'
  }

  /** Number of whitespace characters `s` starts with. */
  function LeadingSpaces(s: string): (n: nat)
    ensures n <= |s| && AllSpace(s[..n])
    ensures n < |s| ==> !IsSpace(s[n])
    decreases |s|
  {
    if s == [] || !IsSpace(s[0]) then 0
    else
      var m := LeadingSpaces(s[1..]);
      assert forall i :: 1 <= i < 1 + m ==> s[i] == s[1..][i - 1];
      1 + m
  }

  /** Length of the (greedy) match of `[.!?][\s]+` at the front of `s`, or 0. */
  function MatchLength(s: string): (n: nat)
    ensures n <= |s|
    ensures n != 1
  {
    if |s| >= 2 && IsTerminator(s[0]) && IsSpace(s[1]) then 1 + LeadingSpaces(s[1..]) else 0
  }

  /** A separator the split removes: a terminator and then whitespace only. */
  predicate IsSeparator(sep: string)
  {
    |sep| >= 2 && IsTerminator(sep[0]) && AllSpace(sep[1..])
  }

  /** One piece of the split, and the separator matched right after it ("" after the last). */
  datatype Piece = Piece(body: string, sep: string)

  /**
   * Scans `t` left to right with `cur` as the piece read so far, cutting at
   * each leftmost match, as `re.split` does.
   */
  function SplitFrom(t: string, cur: string): (ps: seq<Piece>)
    ensures ps != [] && ps[|ps| - 1].sep == []
    ensures forall i :: 0 <= i < |ps| - 1 ==> IsSeparator(ps[i].sep)
    decreases |t|
  {
    if t == [] then [Piece(cur, "")]
    else
      var n := MatchLength(t);
      if n > 0 then
        assert t[..n][1..] == t[1..][..n - 1];
        [Piece(cur, t[..n])] + SplitFrom(t[n..], "")
      else SplitFrom(t[1..], cur + [t[0]])
  }

  function SplitPieces(text: string): seq<Piece>
  {
    SplitFrom(text, "")
  }

  /** `re.split(r'[.!?][\s]+', text)`. */
  function SplitSentences(text: string): (r: seq<string>)
    ensures |r| == |SplitPieces(text)| && |r| >= 1
  {
    Bodies(SplitPieces(text))
  }

  function Bodies(ps: seq<Piece>): (r: seq<string>)
    ensures |r| == |ps|
  {
    seq(|ps|, i requires 0 <= i < |ps| => ps[i].body)
  }

  /** The text a sequence of pieces was cut from. */
  function Rejoin(ps: seq<Piece>): string
  {
    if ps == [] then [] else ps[0].body + ps[0].sep + Rejoin(ps[1..])
  }

  /** Rejoining a cut-off piece in front of the pieces of the rest of `w`. */
  lemma RejoinCut(cur: string, w: string, n: nat, ps: seq<Piece>)
    requires n <= |w| && Rejoin(ps) == w[n..]
    ensures Rejoin([Piece(cur, w[..n])] + ps) == cur + w
  {
    assert ([Piece(cur, w[..n])] + ps)[1..] == ps;
    assert w[..n] + w[n..] == w;
  }

  lemma ShiftConcat(cur: string, t: string)
    requires t != []
    ensures cur + [t[0]] + t[1..] == cur + t
  {
    assert [t[0]] + t[1..] == t;
  }

  /** One step of the scan at a match: the piece read so far is cut off with the match as its separator. */
  lemma SplitFromCut(t: string, cur: string)
    requires MatchLength(t) > 0
    ensures SplitFrom(t, cur) == [Piece(cur, t[..MatchLength(t)])] + SplitFrom(t[MatchLength(t)..], "")
  {
  }

  /** One step of the scan elsewhere: the next character joins the piece read so far. */
  lemma SplitFromShift(t: string, cur: string)
    requires t != [] && MatchLength(t) == 0
    ensures SplitFrom(t, cur) == SplitFrom(t[1..], cur + [t[0]])
  {
  }

  lemma {:induction false} RejoinSplitFrom(t: string, cur: string)
    ensures Rejoin(SplitFrom(t, cur)) == cur + t
    decreases |t|
  {
    if t == [] {
      RejoinCut(cur, t, 0, []);
    } else if MatchLength(t) > 0 {
      var n := MatchLength(t);
      SplitFromCut(t, cur);
      RejoinSplitFrom(t[n..], "");
      RejoinCut(cur, t, n, SplitFrom(t[n..], ""));
    } else {
      SplitFromShift(t, cur);
      RejoinSplitFrom(t[1..], cur + [t[0]]);
      ShiftConcat(cur, t);
    }
  }

  /** Splitting loses nothing: the pieces and separators put back together are the text. */
  lemma SplitRoundTrip(text: string)
    ensures Rejoin(SplitPieces(text)) == text
  {
    RejoinSplitFrom(text, "");
  }

  /** No match of `[.!?][\s]+` starts inside `body`, reading on into `after`. */
  predicate NoMatchWithin(body: string, after: string)
  {
    forall k :: 0 <= k < |body| ==> MatchLength(body[k..] + after) == 0
  }

  /**
   * The pieces are what a leftmost, greedy scan cuts: no match starts inside
   * a piece, reading on into the rest of the text, and every separator but
   * the last is the whole match that starts where its piece ends.
   */
  predicate Scanned(ps: seq<Piece>)
    decreases |ps|
  {
    ps != [] ==>
      var after := Rejoin(ps[1..]);
      NoMatchWithin(ps[0].body, ps[0].sep + after)
      && (|ps| > 1 ==> MatchLength(ps[0].sep + after) == |ps[0].sep|)
      && Scanned(ps[1..])
  }

  lemma ScannedCons(p: Piece, rest: seq<Piece>)
    requires rest != [] && Scanned(rest)
    requires NoMatchWithin(p.body, p.sep + Rejoin(rest))
    requires MatchLength(p.sep + Rejoin(rest)) == |p.sep|
    ensures Scanned([p] + rest)
  {
    assert ([p] + rest)[1..] == rest;
  }

  lemma ScannedLast(cur: string, t: string)
    requires t == [] && NoMatchWithin(cur, t)
    ensures Scanned([Piece(cur, t)])
  {
    assert [Piece(cur, t)][1..] == [];
    assert t + Rejoin([]) == t;
  }

  /** A character that starts no match moves from the text still to scan into the piece. */
  lemma ShiftNoMatch(cur: string, t: string)
    requires t != [] && MatchLength(t) == 0 && NoMatchWithin(cur, t)
    ensures NoMatchWithin(cur + [t[0]], t[1..])
  {
    var c := cur + [t[0]];
    forall k | 0 <= k < |c|
      ensures MatchLength(c[k..] + t[1..]) == 0
    {
      if k < |cur| {
        assert c[k..] + t[1..] == cur[k..] + t;
      } else {
        assert c[k..] + t[1..] == t;
      }
    }
  }

  lemma {:induction false} SplitFromScanned(t: string, cur: string)
    requires NoMatchWithin(cur, t)
    ensures Scanned(SplitFrom(t, cur))
    decreases |t|
  {
    if t == [] {
      ScannedLast(cur, t);
    } else if MatchLength(t) > 0 {
      SplitFromScanned(t[MatchLength(t)..], "");
      ScannedCut(t, cur);
    } else {
      SplitFromShift(t, cur);
      ShiftNoMatch(cur, t);
      SplitFromScanned(t[1..], cur + [t[0]]);
    }
  }

  /** A cut at a match keeps the scan's pieces scanned. */
  lemma ScannedCut(t: string, cur: string)
    requires MatchLength(t) > 0 && NoMatchWithin(cur, t)
    requires Scanned(SplitFrom(t[MatchLength(t)..], ""))
    ensures Scanned(SplitFrom(t, cur))
  {
    var n := MatchLength(t);
    var rest := SplitFrom(t[n..], "");
    SplitFromCut(t, cur);
    RejoinSplitFrom(t[n..], "");
    CutRejoin(t, n, Rejoin(rest));
    ScannedCons(Piece(cur, t[..n]), rest);
  }

  lemma CutRejoin(t: string, n: nat, after: string)
    requires n <= |t| && after == "" + t[n..]
    ensures t[..n] + after == t
  {
    assert "" + t[n..] == t[n..];
  }

  /** `re.split` cuts at every match, leftmost first, each match taken whole. */
  lemma SplitScanned(text: string)
    ensures Scanned(SplitPieces(text))
  {
    SplitFromScanned(text, "");
  }

  /** What `Scanned` says about the piece at position `i`. */
  lemma {:induction false} ScannedAt(ps: seq<Piece>, i: nat)
    requires Scanned(ps) && i < |ps|
    ensures NoMatchWithin(ps[i].body, ps[i].sep + Rejoin(ps[i + 1..]))
    ensures i < |ps| - 1 ==> MatchLength(ps[i].sep + Rejoin(ps[i + 1..])) == |ps[i].sep|
    decreases i
  {
    if i > 0 {
      ScannedAt(ps[1..], i - 1);
      assert ps[1..][i - 1] == ps[i];
      assert ps[1..][i..] == ps[i + 1..];
    }
  }

  /** Text that starts no match keeps starting none when cut short. */
  lemma MatchPrefix(x: string, y: string)
    requires MatchLength(x + y) == 0
    ensures MatchLength(x) == 0
  {
    if |x| >= 2 {
      assert (x + y)[0] == x[0] && (x + y)[1] == x[1];
    }
  }

  /** A whole match in front of non-empty text ends where whitespace ends. */
  lemma MatchEnd(sep: string, after: string)
    requires sep != [] && after != [] && MatchLength(sep + after) == |sep|
    ensures !IsSpace(after[0])
  {
    var s := sep + after;
    assert s[1..][|sep| - 1] == after[0];
  }

  /** No piece of the split holds a match: every `[.!?]` followed by whitespace was cut. */
  lemma SplitNoMatchInsidePieces(text: string, i: nat, k: nat)
    requires i < |SplitPieces(text)| && k < |SplitPieces(text)[i].body|
    ensures MatchLength(SplitPieces(text)[i].body[k..]) == 0
  {
    var ps := SplitPieces(text);
    SplitScanned(text);
    ScannedAt(ps, i);
    MatchPrefix(ps[i].body[k..], ps[i].sep + Rejoin(ps[i + 1..]));
  }

  /** The whitespace after a terminator is taken whole: no piece after a cut starts with whitespace. */
  lemma SplitSeparatorsMaximal(text: string, i: nat)
    requires 0 < i < |SplitPieces(text)|
    ensures SplitPieces(text)[i].body == [] || !IsSpace(SplitPieces(text)[i].body[0])
  {
    var ps := SplitPieces(text);
    SplitScanned(text);
    ScannedAt(ps, i - 1);
    assert ps[i - 1..][1..] == ps[i..];
    var after := Rejoin(ps[i..]);
    if ps[i].body != [] {
      RejoinAt(ps, i);
      assert after[0] == ps[i].body[0];
      MatchEnd(ps[i - 1].sep, after);
    }
  }

  lemma RejoinAt(ps: seq<Piece>, i: nat)
    requires i < |ps|
    ensures Rejoin(ps[i..]) == ps[i].body + ps[i].sep + Rejoin(ps[i + 1..])
  {
    assert ps[i..][1..] == ps[i + 1..];
  }

  // ---------------------------------------------------------------------------
  // Words of a sequence of strings

  /** The words of every string of `ss`, in order. */
  function WordsOfAll(ss: seq<string>): seq<string>
  {
    if ss == [] then [] else WordsOfAll(ss[..|ss| - 1]) + Words(ss[|ss| - 1])
  }

  lemma WordsOfAllSnoc(ss: seq<string>, x: string)
    ensures WordsOfAll(ss + [x]) == WordsOfAll(ss) + Words(x)
  {
    assert (ss + [x])[..|ss|] == ss;
  }

  lemma {:induction false} WordsOfAllAppend(a: seq<string>, b: seq<string>)
    ensures WordsOfAll(a + b) == WordsOfAll(a) + WordsOfAll(b)
    decreases |b|
  {
    if b == [] {
      AppendEmpty(a, b);
    } else {
      var b' := b[..|b| - 1];
      SnocSplit(a, b);
      WordsOfAllAppend(a, b');
      WordsOfAllSnocStep(a, b', b[|b| - 1]);
    }
  }

  lemma WordsOfAllSnocStep(a: seq<string>, b: seq<string>, x: string)
    requires WordsOfAll(a + b) == WordsOfAll(a) + WordsOfAll(b)
    ensures WordsOfAll((a + b) + [x]) == WordsOfAll(a) + WordsOfAll(b + [x])
  {
    WordsOfAllSnoc(a + b, x);
    WordsOfAllSnoc(b, x);
  }

  lemma AppendEmpty(a: seq<string>, b: seq<string>)
    requires b == []
    ensures a + b == a
  {
  }

  lemma SnocSplit(a: seq<string>, b: seq<string>)
    requires b != []
    ensures a + b == (a + b[..|b| - 1]) + [b[|b| - 1]]
    ensures b == b[..|b| - 1] + [b[|b| - 1]]
  {
  }

  /** A piece with the terminator character the split cut after it put back. */
  function WithTerminator(p: Piece): string
  {
    p.body + p.sep[..if p.sep == [] then 0 else 1]
  }

  /** Each piece with its own terminator character put back. */
  function Restored(ps: seq<Piece>): (r: seq<string>)
    ensures |r| == |ps|
  {
    seq(|ps|, i requires 0 <= i < |ps| => WithTerminator(ps[i]))
  }

  lemma RestoredCons(p: Piece, ps: seq<Piece>)
    ensures Restored([p] + ps) == [WithTerminator(p)] + Restored(ps)
  {
  }

  lemma WordsOfSingle(x: string)
    ensures WordsOfAll([x]) == Words(x)
  {
    assert [x][..0] == [];
  }

  /** Cutting at a match splits the words between the terminator and what follows the spaces. */
  lemma WordsAcrossMatch(cur: string, t: string)
    requires t != [] && MatchLength(t) > 0
    ensures Words(cur + t) == Words(cur + [t[0]]) + Words(t[MatchLength(t)..])
  {
    var n := MatchLength(t);
    var head := cur + [t[0]];
    var spaces := t[1..n];
    assert spaces == t[1..][..n - 1];
    assert AllSpace(spaces);
    assert cur + t == head + (spaces + t[n..]);
    WordsAppend(head, spaces + t[n..]);
    WordsAppend(spaces, t[n..]);
    WordsOfSpaces(spaces);
  }

  lemma {:induction false} WordsOfSplitFrom(t: string, cur: string)
    ensures WordsOfAll(Restored(SplitFrom(t, cur))) == Words(cur + t)
    decreases |t|, 1
  {
    if t == [] {
      WordsOfLastPiece(t, cur);
      assert cur + t == cur;
    } else if MatchLength(t) > 0 {
      WordsOfSplitAtMatch(t, cur);
    } else {
      SplitFromShift(t, cur);
      WordsOfSplitFrom(t[1..], cur + [t[0]]);
      ShiftConcat(cur, t);
    }
  }

  lemma WordsOfLastPiece(t: string, cur: string)
    requires t == []
    ensures WordsOfAll(Restored(SplitFrom(t, cur))) == Words(cur)
  {
    assert SplitFrom(t, cur) == [Piece(cur, "")];
    assert WithTerminator(Piece(cur, "")) == cur;
    assert Restored([Piece(cur, "")]) == [cur];
    WordsOfSingle(cur);
  }

  lemma {:induction false} WordsOfSplitAtMatch(t: string, cur: string)
    requires t != [] && MatchLength(t) > 0
    ensures WordsOfAll(Restored(SplitFrom(t, cur))) == Words(cur + t)
    decreases |t|, 0
  {
    var n := MatchLength(t);
    var rest := SplitFrom(t[n..], "");
    SplitFromCut(t, cur);
    WordsOfCutPiece(cur, t, n, rest);
    WordsOfSplitFrom(t[n..], "");
    assert "" + t[n..] == t[n..];
    WordsAcrossMatch(cur, t);
  }

  /** The words of a piece cut off at a match, put in front of the rest. */
  lemma WordsOfCutPiece(cur: string, t: string, n: nat, rest: seq<Piece>)
    requires 0 < n <= |t|
    ensures WordsOfAll(Restored([Piece(cur, t[..n])] + rest)) == Words(cur + [t[0]]) + WordsOfAll(Restored(rest))
  {
    var piece := Piece(cur, t[..n]);
    assert WithTerminator(piece) == cur + [t[0]] by {
      assert t[..n][..1] == [t[0]];
    }
    RestoredCons(piece, rest);
    WordsOfAllAppend([cur + [t[0]]], Restored(rest));
    WordsOfSingle(cur + [t[0]]);
  }

  /**
   * The words of the text are exactly the words of the split pieces, each
   * followed by the terminator character the split cut away.
   */
  lemma WordsOfSplit(text: string)
    ensures WordsOfAll(Restored(SplitPieces(text))) == Words(text)
  {
    WordsOfSplitFrom(text, "");
    assert "" + text == text;
  }

  // ---------------------------------------------------------------------------
  // text_to_chunks

  /**
   * The pieces as the chunking loop sees them: every piece whose VALUE differs
   * from the last piece's gets ".".
   */
  function Dotted(sentences: seq<string>): (r: seq<string>)
    requires sentences != []
    ensures |r| == |sentences|
  {
    var last := sentences[|sentences| - 1];
    seq(|sentences|, i requires 0 <= i < |sentences| =>
      if sentences[i] != last then sentences[i] + "." else sentences[i])
  }

  /**
   * Every cut is made at a '.', and no piece but the last has the last
   * piece's value: then the loop puts back exactly what the split removed.
   */
  predicate PlainStops(ps: seq<Piece>)
    requires ps != []
  {
    forall i :: 0 <= i < |ps| - 1 ==> ps[i].sep != [] && ps[i].sep[0] == '.' && ps[i].body != ps[|ps| - 1].body
  }

  lemma DottedIsRestored(text: string)
    requires PlainStops(SplitPieces(text))
    ensures ChunkPieces(text) == Restored(SplitPieces(text))
  {
    DottedBodies(SplitPieces(text));
  }

  lemma DottedBodies(ps: seq<Piece>)
    requires ps != [] && ps[|ps| - 1].sep == [] && PlainStops(ps)
    ensures Dotted(Bodies(ps)) == Restored(ps)
  {
    forall i | 0 <= i < |ps|
      ensures Dotted(Bodies(ps))[i] == Restored(ps)[i]
    {
      if i < |ps| - 1 {
        assert ps[i].sep[..1] == ".";
      }
    }
  }

  /** With plain full stops, the pieces the loop packs hold exactly the words of the text. */
  lemma ChunkPiecesWords(text: string)
    requires PlainStops(SplitPieces(text))
    ensures WordsOfAll(ChunkPieces(text)) == Words(text)
  {
    DottedIsRestored(text);
    WordsOfSplit(text);
  }

  /** Every whitespace-separated word of `s` fits in `maxLength`. */
  predicate WordsWithin(s: string, maxLength: int)
  {
    forall j :: 0 <= j < |Words(s)| ==> |Words(s)[j]| <= maxLength
  }

  /** Every whitespace-separated word of every piece fits in `maxLength`. */
  predicate WordsFit(pieces: seq<string>, maxLength: int)
  {
    forall i :: 0 <= i < |pieces| ==> WordsWithin(pieces[i], maxLength)
  }

  /** The pieces `text_to_chunks` packs into chunks. */
  function ChunkPieces(text: string): seq<string>
  {
    Dotted(SplitSentences(text))
  }

  /** The words of one piece sit, in order, inside the words of all pieces. */
  lemma WordsOfPieceSplit(ss: seq<string>, i: nat)
    requires i < |ss|
    ensures WordsOfAll(ss) == WordsOfAll(ss[..i]) + Words(ss[i]) + WordsOfAll(ss[i + 1..])
  {
    CutAround(ss, i);
    WordsOfAllAppend(ss[..i] + [ss[i]], ss[i + 1..]);
    WordsOfAllSnoc(ss[..i], ss[i]);
  }

  lemma CutAround<T>(ss: seq<T>, i: nat)
    requires i < |ss|
    ensures ss == (ss[..i] + [ss[i]]) + ss[i + 1..]
  {
  }

  /** Every word of every string of `ss` fits when every word of their concatenated words does. */
  lemma WordsFitOfAll(ss: seq<string>, maxLength: int)
    requires forall j :: 0 <= j < |WordsOfAll(ss)| ==> |WordsOfAll(ss)[j]| <= maxLength
    ensures WordsFit(ss, maxLength)
  {
    forall i | 0 <= i < |ss|
      ensures WordsWithin(ss[i], maxLength)
    {
      WordsOfPieceSplit(ss, i);
      var pre := WordsOfAll(ss[..i]);
      forall j | 0 <= j < |Words(ss[i])|
        ensures |Words(ss[i])[j]| <= maxLength
      {
        assert Words(ss[i])[j] == WordsOfAll(ss)[|pre| + j];
      }
    }
  }

  /** Where the trailing run of non-space characters of `b` starts. */
  function TrailingRunStart(b: string): (k: nat)
    ensures k <= |b| && NoSpace(b[k..]) && (k == 0 || IsSpace(b[k - 1]))
    decreases |b|
  {
    if b == [] || IsSpace(b[|b| - 1]) then |b|
    else
      var k := TrailingRunStart(b[..|b| - 1]);
      assert b[k..] == b[..|b| - 1][k..] + [b[|b| - 1]];
      assert k > 0 ==> b[k - 1] == b[..|b| - 1][k - 1];
      k
  }

  /** A non-empty string without whitespace is one word. */
  lemma SingleWord(w: string)
    requires w != [] && NoSpace(w)
    ensures Words(w) == [w]
  {
    WholeWord(w, []);
  }

  /** The words of `b1 + w` when `w` is a run of non-space characters after whitespace or nothing. */
  lemma WordsBeforeRun(b1: string, w: string)
    requires (b1 == [] || IsSpace(b1[|b1| - 1])) && NoSpace(w)
    ensures Words(b1 + w) == Words(b1) + (if w == [] then [] else [w])
  {
    WordsAppend(b1, w);
    if w == [] {
      assert Words(w) == [];
    } else {
      SingleWord(w);
    }
  }

  /**
   * A piece with its terminator replaced by another non-space character, or
   * dropped, has no word longer than the piece had.
   */
  lemma SnocWithin(b: string, c: char, d: char, maxLength: int)
    requires !IsSpace(c) && !IsSpace(d) && WordsWithin(b + [c], maxLength)
    ensures WordsWithin(b + [d], maxLength) && WordsWithin(b, maxLength)
  {
    var k := TrailingRunStart(b);
    var b1, w := b[..k], b[k..];
    RunSnoc(b, k, c);
    RunSnoc(b, k, d);
    WordsBeforeRun(b1, w + [c]);
    WordsBeforeRun(b1, w + [d]);
    WordsBeforeRun(b1, w);
    WithinSnoc(Words(b1), w + [c], w + [d], w, maxLength);
  }

  /** Cutting `b` before its trailing run and extending the run by a non-space character. */
  lemma RunSnoc(b: string, k: nat, c: char)
    requires k <= |b| && NoSpace(b[k..]) && !IsSpace(c)
    ensures b == b[..k] + b[k..] && b + [c] == b[..k] + (b[k..] + [c]) && NoSpace(b[k..] + [c])
  {
    var w := b[k..];
    assert forall i :: 0 <= i < |w| ==> (w + [c])[i] == w[i];
  }

  /** The bound on the words `pre + [x]` carries to `pre + [y]` and to `pre` plus a shorter run. */
  lemma WithinSnoc(pre: seq<string>, x: string, y: string, w: string, maxLength: int)
    requires |y| == |x| && |w| < |x|
    requires forall j :: 0 <= j < |pre + [x]| ==> |(pre + [x])[j]| <= maxLength
    ensures forall j :: 0 <= j < |pre + [y]| ==> |(pre + [y])[j]| <= maxLength
    ensures var ws := pre + (if w == [] then [] else [w]);
      forall j :: 0 <= j < |ws| ==> |ws[j]| <= maxLength
  {
    assert (pre + [x])[|pre|] == x;
    forall j | 0 <= j < |pre|
      ensures |pre[j]| <= maxLength
    {
      assert (pre + [x])[j] == pre[j];
    }
  }

  /** Each packed piece has no word longer than the same piece with its own terminator put back. */
  lemma DottedWithin(ps: seq<Piece>, i: nat, maxLength: int)
    requires ps != [] && ps[|ps| - 1].sep == [] && i < |ps|
    requires forall j :: 0 <= j < |ps| - 1 ==> IsSeparator(ps[j].sep)
    requires WordsWithin(Restored(ps)[i], maxLength)
    ensures WordsWithin(Dotted(Bodies(ps))[i], maxLength)
  {
    var body := ps[i].body;
    if i < |ps| - 1 {
      var t := ps[i].sep[0];
      assert Restored(ps)[i] == body + [t];
      assert IsTerminator(t);
      SnocWithin(body, t, '.', maxLength);
    } else {
      assert Restored(ps)[i] == body;
    }
  }

  /**
   * When every word of the text fits, so does every word of every piece the
   * loop packs: a dot added back, or one left off, never lengthens a word
   * past the word of the text it comes from.
   */
  lemma TextWordsFit(text: string, maxLength: int)
    requires WordsWithin(text, maxLength)
    ensures WordsFit(ChunkPieces(text), maxLength)
  {
    var ps := SplitPieces(text);
    WordsOfSplit(text);
    WordsFitOfAll(Restored(ps), maxLength);
    forall i | 0 <= i < |ps|
      ensures WordsWithin(ChunkPieces(text)[i], maxLength)
    {
      DottedWithin(ps, i, maxLength);
    }
  }

  predicate AllStripped(chunks: seq<string>)
  {
    forall k :: 0 <= k < |chunks| ==> IsStripped(chunks[k])
  }

  predicate AllWithin(chunks: seq<string>, maxLength: int)
  {
    forall k :: 0 <= k < |chunks| ==> |chunks[k]| <= maxLength
  }

  /** The chunk being built is empty or ends in the space the loop appends after each item. */
  predicate Open(current: string)
  {
    current == [] || current[|current| - 1] == ' '
  }

  /**
   * The inner loop of `text_to_chunks` for a piece longer than the limit: its
   * words are packed one by one, starting from an empty chunk.
   */
  method PackWords(chunks0: seq<string>, words: seq<string>, maxLength: int)
    returns (chunks: seq<string>, current: string)
    requires forall j :: 0 <= j < |words| ==> words[j] != [] && NoSpace(words[j])
    requires AllStripped(chunks0)
    ensures AllStripped(chunks) && Open(current)
    ensures WordsOfAll(chunks) + Words(current) == WordsOfAll(chunks0) + words
    ensures AllWithin(chunks0, maxLength) && (forall j :: 0 <= j < |words| ==> |words[j]| <= maxLength)
      ==> AllWithin(chunks, maxLength) && (current != [] ==> |current| <= maxLength + 1)
  {
    ghost var fits := AllWithin(chunks0, maxLength) && forall j :: 0 <= j < |words| ==> |words[j]| <= maxLength;
    chunks := chunks0;
    current := "";
    for j := 0 to |words|
      invariant AllStripped(chunks) && Open(current)
      invariant fits ==> AllWithin(chunks, maxLength) && (current != [] ==> |current| <= maxLength + 1)
      invariant WordsOfAll(chunks) + Words(current) == WordsOfAll(chunks0) + words[..j]
    {
      assert words[..j + 1] == words[..j] + [words[j]];
      chunks, current := PackWord(chunks, current, words[j], maxLength);
    }
    assert words[..|words|] == words;
  }

  /**
   * One pass of the inner loop: the word goes into the chunk being built, or,
   * when that would pass the limit, the chunk is closed and a new one starts
   * at the word.
   */
  method PackWord(chunks: seq<string>, current: string, word: string, maxLength: int)
    returns (chunks': seq<string>, current': string)
    requires word != [] && NoSpace(word)
    requires AllStripped(chunks) && Open(current)
    ensures AllStripped(chunks') && Open(current')
    ensures WordsOfAll(chunks') + Words(current') == WordsOfAll(chunks) + Words(current) + [word]
    ensures if |current| + |word| + 1 > maxLength
      then chunks' == chunks + [Strip(current)] && current' == word + " "
      else chunks' == chunks && current' == current + word + " "
    ensures AllWithin(chunks, maxLength) && (current != [] ==> |current| <= maxLength + 1) && |word| <= maxLength
      ==> AllWithin(chunks', maxLength) && (current' != [] ==> |current'| <= maxLength + 1)
  {
    WordsOfWord(word);
    if |current| + |word| + 1 > maxLength {
      WordsOfAllSnoc(chunks, Strip(current));
      chunks', current' := chunks + [Strip(current)], word + " ";
    } else {
      WordsAppend(current, word + " ");
      chunks', current' := chunks, current + (word + " ");
    }
  }

  /**
   * `text_to_chunks(text, max_length)`. Short text comes back whole. Otherwise
   * the chunks hold, in order, exactly the words of the pieces, each chunk is
   * stripped, and when every word fits so does every chunk.
   */
  method TextToChunks(text: string, maxLength: int) returns (chunks: seq<string>)
    ensures |text| <= maxLength ==> chunks == [text]
    ensures |text| > maxLength ==> WordsOfAll(chunks) == WordsOfAll(ChunkPieces(text))
    ensures |text| > maxLength ==> AllStripped(chunks)
    ensures |text| > maxLength && PlainStops(SplitPieces(text)) ==> WordsOfAll(chunks) == Words(text)
    ensures WordsFit(ChunkPieces(text), maxLength) ==> AllWithin(chunks, maxLength)
    ensures WordsWithin(text, maxLength) ==> AllWithin(chunks, maxLength)
  {
    if |text| <= maxLength {
      return [text];
    }
    chunks := PackSentences(SplitSentences(text), maxLength);
    if PlainStops(SplitPieces(text)) {
      ChunkPiecesWords(text);
    }
    if WordsWithin(text, maxLength) {
      TextWordsFit(text, maxLength);
    }
  }

  /**
   * The loop of `text_to_chunks` over the split pieces: each piece but those
   * equal to the last gets a "." back, and the pieces are packed in order.
   */
  method PackSentences(sentences: seq<string>, maxLength: int) returns (chunks: seq<string>)
    requires sentences != []
    ensures WordsOfAll(chunks) == WordsOfAll(Dotted(sentences))
    ensures AllStripped(chunks)
    ensures WordsFit(Dotted(sentences), maxLength) ==> AllWithin(chunks, maxLength)
  {
    ghost var dotted := Dotted(sentences);
    ghost var fits := WordsFit(dotted, maxLength);
    chunks := [];
    var current := "";
    for i := 0 to |sentences|
      invariant AllStripped(chunks) && Open(current)
      invariant fits ==> AllWithin(chunks, maxLength) && (current != [] ==> |current| <= maxLength + 1)
      invariant WordsOfAll(chunks) + Words(current) == WordsOfAll(dotted[..i])
    {
      var sentence := sentences[i];
      if sentence != sentences[|sentences| - 1] {
        sentence := sentence + ".";
      }
      assert sentence == dotted[i];
      DottedPrefix(dotted, i, maxLength);
      chunks, current := PackSentence(chunks, current, sentence, maxLength);
    }
    assert dotted[..|sentences|] == dotted;
    chunks := CloseLast(chunks, current, maxLength);
  }

  /** Taking one more piece adds its words, and a piece of a list whose words fit has words that fit. */
  lemma DottedPrefix(pieces: seq<string>, i: nat, maxLength: int)
    requires i < |pieces|
    ensures WordsOfAll(pieces[..i + 1]) == WordsOfAll(pieces[..i]) + Words(pieces[i])
    ensures WordsFit(pieces, maxLength) ==> WordsWithin(pieces[i], maxLength)
  {
    assert pieces[..i + 1] == pieces[..i] + [pieces[i]];
    WordsOfAllSnoc(pieces[..i], pieces[i]);
  }

  /** After the loop: the chunk being built is kept, stripped, unless it is blank. */
  method CloseLast(chunks: seq<string>, current: string, maxLength: int) returns (closed: seq<string>)
    requires AllStripped(chunks) && Open(current)
    ensures closed == if Strip(current) != [] then chunks + [Strip(current)] else chunks
    ensures AllStripped(closed)
    ensures WordsOfAll(closed) == WordsOfAll(chunks) + Words(current)
    ensures AllWithin(chunks, maxLength) && (current != [] ==> |current| <= maxLength + 1)
      ==> AllWithin(closed, maxLength)
  {
    var last := Strip(current);
    if last != [] {
      Close(chunks, current, maxLength);
      closed := chunks + [last];
    } else {
      CloseBlank(chunks, current);
      closed := chunks;
    }
  }

  /** A blank chunk adds no words. */
  lemma CloseBlank(chunks: seq<string>, current: string)
    requires Strip(current) == []
    ensures WordsOfAll(chunks) == WordsOfAll(chunks) + Words(current)
  {
    BlankHasNoWords(current);
    assert WordsOfAll(chunks) + [] == WordsOfAll(chunks);
  }

  /** Appending the chunk being built, stripped, keeps every chunk stripped, keeps its words, and keeps the bound. */
  lemma Close(chunks: seq<string>, current: string, maxLength: int)
    requires AllStripped(chunks) && Open(current) && current != []
    ensures AllStripped(chunks + [Strip(current)])
    ensures WordsOfAll(chunks + [Strip(current)]) == WordsOfAll(chunks) + Words(current)
    ensures AllWithin(chunks, maxLength) && |current| <= maxLength + 1
      ==> AllWithin(chunks + [Strip(current)], maxLength)
  {
    var x := Strip(current);
    WordsOfAllSnoc(chunks, x);
    var closed := chunks + [x];
    forall k | 0 <= k < |closed|
      ensures IsStripped(closed[k])
      ensures AllWithin(chunks, maxLength) && |current| <= maxLength + 1 ==> |closed[k]| <= maxLength
    {
      if k < |chunks| {
        assert closed[k] == chunks[k];
      }
    }
  }

  /**
   * One pass of the outer loop: the piece joins the chunk being built, or the
   * chunk is closed and the piece starts the next one, cut into words when it
   * is itself longer than the limit.
   */
  method PackSentence(chunks: seq<string>, current: string, sentence: string, maxLength: int)
    returns (chunks': seq<string>, current': string)
    requires AllStripped(chunks) && Open(current)
    ensures AllStripped(chunks') && Open(current')
    ensures WordsOfAll(chunks') + Words(current') == WordsOfAll(chunks) + Words(current) + Words(sentence)
    ensures |current| + |sentence| <= maxLength ==> chunks' == chunks && current' == current + sentence + " "
    ensures maxLength < |current| + |sentence| && |sentence| <= maxLength ==>
      chunks' == (if current != [] then chunks + [Strip(current)] else chunks) && current' == sentence + " "
    ensures AllWithin(chunks, maxLength) && (current != [] ==> |current| <= maxLength + 1) && WordsWithin(sentence, maxLength)
      ==> AllWithin(chunks', maxLength) && (current' != [] ==> |current'| <= maxLength + 1)
  {
    WordsTrailingSpace(sentence);
    if |current| + |sentence| > maxLength {
      var closed := CloseChunk(chunks, current, maxLength);
      if |sentence| > maxLength {
        WordsShape(sentence);
        chunks', current' := PackWords(closed, Words(sentence), maxLength);
      } else {
        chunks', current' := closed, sentence + " ";
      }
    } else {
      WordsAppend(current, sentence + " ");
      chunks', current' := chunks, current + (sentence + " ");
    }
  }

  /** Closes the chunk being built, if it holds anything, by appending it stripped. */
  method CloseChunk(chunks: seq<string>, current: string, maxLength: int) returns (closed: seq<string>)
    requires AllStripped(chunks) && Open(current)
    ensures closed == if current != [] then chunks + [Strip(current)] else chunks
    ensures AllStripped(closed)
    ensures WordsOfAll(closed) == WordsOfAll(chunks) + Words(current)
    ensures AllWithin(chunks, maxLength) && (current != [] ==> |current| <= maxLength + 1)
      ==> AllWithin(closed, maxLength)
  {
    closed := chunks;
    if current != [] {
      Close(chunks, current, maxLength);
      closed := chunks + [Strip(current)];
    }
  }

  // ---------------------------------------------------------------------------
  // is_supported_audio_format

  const SupportedFormats: seq<string> := [".mp3", ".wav", ".ogg", ".aiff"]

  /** `is_supported_audio_format(file_path)`: the lower-cased extension is a supported one. */
  predicate IsSupportedAudioFormat(filePath: Path)
  {
    Lower(SplitExt(filePath).1) in SupportedFormats
  }

  /** Every supported extension is a '.' and then letters and digits. */
  lemma FormatShape(f: string)
    requires f in SupportedFormats
    ensures |f| >= 2 && f[0] == '.' && forall i :: 1 <= i < |f| ==> f[i] != '.' && f[i] != '/'
  {
    if f == ".mp3" {
      assert f == ['.', 'm', 'p', '3'];
    } else if f == ".wav" {
      assert f == ['.', 'w', 'a', 'v'];
    } else if f == ".ogg" {
      assert f == ['.', 'o', 'g', 'g'];
    } else {
      assert f == ['.', 'a', 'i', 'f', 'f'];
    }
  }

  /** An extension that lower-cases to a supported one has the shape `splitext` cuts off. */
  lemma ExtensionShape(e: string)
    requires Lower(e) in SupportedFormats
    ensures e != [] && e[0] == '.' && '.' !in e[1..] && '/' !in e
  {
    var f := Lower(e);
    FormatShape(f);
    assert e[0] == '.' by {
      assert LowerChar(e[0]) == '.';
    }
    forall i | 1 <= i < |e|
      ensures e[i] != '.' && e[i] != '/'
    {
      assert LowerChar(e[i]) == f[i];
    }
    assert '.' !in e[1..] by {
      forall i | 0 <= i < |e[1..]| ensures e[1..][i] != '.' {
        assert e[1..][i] == e[i + 1];
      }
    }
  }

  /** A named stem followed by a supported extension, in any letter case, is supported. */
  lemma SupportedFormatAt(stem: string, e: string)
    requires NamedStem(stem) && Lower(e) in SupportedFormats
    ensures IsSupportedAudioFormat(stem + e)
  {
    ExtensionShape(e);
    SplitExtAt(stem, e);
  }

  /**
   * A path has a supported format exactly when it is a named stem followed
   * by one of the extensions, in any letter case.
   */
  lemma SupportedFormatIff(p: Path)
    ensures IsSupportedAudioFormat(p) <==>
      exists k :: 0 <= k <= |p| && NamedStem(p[..k]) && Lower(p[k..]) in SupportedFormats
  {
    if IsSupportedAudioFormat(p) {
      SupportedFormatWitness(p);
      var k := |SplitExt(p).0|;
      assert 0 <= k <= |p| && NamedStem(p[..k]) && Lower(p[k..]) in SupportedFormats;
    }
    if exists k :: 0 <= k <= |p| && NamedStem(p[..k]) && Lower(p[k..]) in SupportedFormats {
      var k :| 0 <= k <= |p| && NamedStem(p[..k]) && Lower(p[k..]) in SupportedFormats;
      SupportedFormatSplit(p, k);
    }
  }

  /** A supported path is cut by `splitext` after a named stem. */
  lemma SupportedFormatWitness(p: Path)
    requires IsSupportedAudioFormat(p)
    ensures var k := |SplitExt(p).0|;
      k <= |p| && NamedStem(p[..k]) && Lower(p[k..]) in SupportedFormats
  {
    var r := SplitExt(p);
    assert p[..|r.0|] == r.0 && p[|r.0|..] == r.1;
  }

  lemma SupportedFormatSplit(p: Path, k: nat)
    requires k <= |p| && NamedStem(p[..k]) && Lower(p[k..]) in SupportedFormats
    ensures IsSupportedAudioFormat(p)
  {
    assert p == p[..k] + p[k..];
    SupportedFormatAt(p[..k], p[k..]);
  }

  /** A path whose final component is empty or only dots, such as "dir/" or "..", is not an audio file. */
  lemma UnnamedUnsupported(p: Path)
    requires !NamedStem(p)
    ensures !IsSupportedAudioFormat(p)
  {
    SplitExtUnnamed(p);
    assert Lower("") == "";
  }

  /**
   * A hidden file whose name is dots and then a supported format's letters,
   * such as ".wav" or "dir/..mp3", is not an audio file: it has no extension.
   */
  lemma HiddenFileUnsupported(dir: Path, d: string, x: string)
    requires d != [] && forall i :: 0 <= i < |d| ==> d[i] == '.'
    requires '.' !in x && '/' !in x
    ensures !IsSupportedAudioFormat(DirPrefix(dir) + d + x)
  {
    SplitExtHidden(dir, d, x);
    assert Lower("") == "";
  }

  /** In particular ".wav" on its own is not a supported audio file. */
  lemma DotWavUnsupported()
    ensures !IsSupportedAudioFormat(".wav")
  {
    assert DirPrefix("") + "." + "wav" == ".wav";
    HiddenFileUnsupported("", ".", "wav");
  }
}
