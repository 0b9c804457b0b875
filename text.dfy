/** Pure string functions of the two setup scripts: the CRLF rewrite applied to
    patch files, the text of a sparse-checkout file, and trailing-slash stripping. */
module Text {

  /** Python's `s.replace(a + b, c)` for a two-element pattern: a left-to-right
      scan that rewrites every non-overlapping occurrence of `[a, b]` to `[c]`. */
  function ReplacePair<T(==)>(s: seq<T>, a: T, b: T, c: T): seq<T>
    decreases |s|
  {
    if |s| < 2 then s
    else if s[0] == a && s[1] == b then [c] + ReplacePair(s[2..], a, b, c)
    else [s[0]] + ReplacePair(s[1..], a, b, c)
  }

  /** The number of matches the scan of `ReplacePair` finds. */
  function CountPair<T(==)>(s: seq<T>, a: T, b: T): nat
    decreases |s|
  {
    if |s| < 2 then 0
    else if s[0] == a && s[1] == b then 1 + CountPair(s[2..], a, b)
    else CountPair(s[1..], a, b)
  }

  /** `[a, b]` occurs somewhere in `s` (Python's `a + b in s`). */
  predicate HasPair<T(==)>(s: seq<T>, a: T, b: T) {
    exists i :: 0 <= i < |s| - 1 && s[i] == a && s[i + 1] == b
  }

  /** Number of occurrences of `x` in `s`. */
  function Occurrences<T(==)>(s: seq<T>, x: T): nat
    decreases |s|
  {
    if s == [] then 0 else (if s[0] == x then 1 else 0) + Occurrences(s[1..], x)
  }

  lemma {:induction false} OccurrencesAppend<T>(s: seq<T>, t: seq<T>, x: T)
    ensures Occurrences(s + t, x) == Occurrences(s, x) + Occurrences(t, x)
  {
    if s == [] {
      assert s + t == t;
    } else {
      assert (s + t)[1..] == s[1..] + t;
      OccurrencesAppend(s[1..], t, x);
    }
  }

  /** Each match shortens the text by one element. */
  lemma {:induction false} ReplacePairLength<T>(s: seq<T>, a: T, b: T, c: T)
    ensures |ReplacePair(s, a, b, c)| == |s| - CountPair(s, a, b)
    decreases |s|
  {
    if |s| >= 2 {
      if s[0] == a && s[1] == b {
        ReplacePairLength(s[2..], a, b, c);
      } else {
        ReplacePairLength(s[1..], a, b, c);
      }
    }
  }

  /** The scan finds a match exactly when the pattern occurs. */
  lemma {:induction false} CountPairPositive<T>(s: seq<T>, a: T, b: T)
    ensures CountPair(s, a, b) > 0 <==> HasPair(s, a, b)
    decreases |s|
  {
    if |s| >= 2 {
      if s[0] == a && s[1] == b {
        assert s[0] == a && s[0 + 1] == b;
      } else {
        CountPairPositive(s[1..], a, b);
        if HasPair(s, a, b) {
          var i :| 0 <= i < |s| - 1 && s[i] == a && s[i + 1] == b;
          assert i > 0;
          assert s[1..][i - 1] == a && s[1..][i - 1 + 1] == b;
        }
        if HasPair(s[1..], a, b) {
          var i :| 0 <= i < |s| - 2 && s[1..][i] == a && s[1..][i + 1] == b;
          assert s[i + 1] == a && s[i + 1 + 1] == b;
        }
      }
    }
  }

  /** Text without the first element of the pattern comes back unchanged. */
  lemma {:induction false} ReplacePairWithoutA<T>(s: seq<T>, a: T, b: T, c: T)
    ensures a !in s ==> ReplacePair(s, a, b, c) == s
    decreases |s|
  {
    if |s| >= 2 && a !in s {
      assert s[1..][0] == s[1];
      ReplacePairWithoutA(s[1..], a, b, c);
    }
  }

  /** The rewrite leaves its input unchanged exactly when the pattern does not occur. */
  lemma ReplacePairUnchanged<T>(s: seq<T>, a: T, b: T, c: T)
    ensures ReplacePair(s, a, b, c) == s <==> !HasPair(s, a, b)
  {
    ReplacePairLength(s, a, b, c);
    CountPairPositive(s, a, b);
    if !HasPair(s, a, b) {
      ReplacePairNoMatch(s, a, b, c);
    }
  }

  lemma {:induction false} ReplacePairNoMatch<T>(s: seq<T>, a: T, b: T, c: T)
    requires CountPair(s, a, b) == 0
    ensures ReplacePair(s, a, b, c) == s
    decreases |s|
  {
    if |s| >= 2 {
      ReplacePairNoMatch(s[1..], a, b, c);
    }
  }

  /** When the replacement equals the second element of the pattern (`"\r\n"` to
      `"\n"`), every occurrence of that element survives, and exactly one `a` is
      dropped per match. */
  lemma {:induction false} ReplacePairKeepsSecond<T>(s: seq<T>, a: T, b: T)
    requires a != b
    ensures Occurrences(ReplacePair(s, a, b, b), b) == Occurrences(s, b)
    ensures Occurrences(ReplacePair(s, a, b, b), a) == Occurrences(s, a) - CountPair(s, a, b)
    decreases |s|
  {
    if |s| >= 2 {
      if s[0] == a && s[1] == b {
        ReplacePairKeepsSecond(s[2..], a, b);
        OccurrencesAppend([b], ReplacePair(s[2..], a, b, b), b);
        OccurrencesAppend([b], ReplacePair(s[2..], a, b, b), a);
        assert s == [a, b] + s[2..];
        OccurrencesAppend([a, b], s[2..], b);
        OccurrencesAppend([a, b], s[2..], a);
        CountPairBound(s[2..], a, b);
      } else {
        ReplacePairKeepsSecond(s[1..], a, b);
        OccurrencesAppend([s[0]], ReplacePair(s[1..], a, b, b), b);
        OccurrencesAppend([s[0]], ReplacePair(s[1..], a, b, b), a);
      }
    } else {
      CountPairBound(s, a, b);
    }
  }

  /** Every match consumes one `a`. */
  lemma {:induction false} CountPairBound<T>(s: seq<T>, a: T, b: T)
    ensures CountPair(s, a, b) <= Occurrences(s, a)
    decreases |s|
  {
    if |s| >= 2 {
      if s[0] == a && s[1] == b {
        CountPairBound(s[2..], a, b);
        assert s[1..][1..] == s[2..];
      } else {
        CountPairBound(s[1..], a, b);
      }
    } else if |s| == 1 {
      assert s[1..] == [];
    }
  }

  /** CRLF to LF, as `str.replace("\r\n", "\n")` and `bytes.replace(b"\r\n", b"\n")`
      do it (a byte string and its character string rewrite identically). */
  function NormalizeNewlines(s: string): string {
    ReplacePair(s, '\r', '\n', '\n')
  }

  /** The rewrite is not idempotent: a CR before a CRLF survives one pass. */
  lemma NormalizeNotIdempotent()
    ensures NormalizeNewlines("\r\r\n") == "\r\n"
    ensures NormalizeNewlines(NormalizeNewlines("\r\r\n")) == "\n"
  {
  }

  /** `"\n".join(lines)`. */
  function JoinLines(lines: seq<string>): string
    decreases |lines|
  {
    if |lines| == 0 then ""
    else if |lines| == 1 then lines[0]
    else lines[0] + "\n" + JoinLines(lines[1..])
  }

  /** Every line followed by its own newline: the reference form of a line file. */
  function Terminated(lines: seq<string>): string
    decreases |lines|
  {
    if lines == [] then "" else lines[0] + "\n" + Terminated(lines[1..])
  }

  /** The content written to `.git/info/sparse-checkout`: `"\n".join(sparse) + "\n"`. */
  function SparseFileText(sparse: seq<string>): (r: string)
    ensures |r| > 0 && r[|r| - 1] == '\n'
  {
    JoinLines(sparse) + "\n"
  }

  /** For a non-empty list (the only case the scripts write), the sparse file has
      exactly one newline-terminated line per entry, in order. */
  lemma {:induction false} SparseFileTextLines(sparse: seq<string>)
    requires |sparse| > 0
    ensures SparseFileText(sparse) == Terminated(sparse)
    decreases |sparse|
  {
    if |sparse| > 1 {
      SparseFileTextLines(sparse[1..]);
    }
  }

  /** Index of the first newline of `t`, or `|t|` if it has none. */
  function FirstNewline(t: string): (k: nat)
    ensures k <= |t|
    ensures forall i :: 0 <= i < k ==> t[i] != '\n'
    ensures k < |t| ==> t[k] == '\n'
    decreases |t|
  {
    if t == [] || t[0] == '\n' then 0 else 1 + FirstNewline(t[1..])
  }

  /** Splits text into lines at each newline; a final unterminated piece is a last line. */
  function SplitLines(t: string): seq<string>
    decreases |t|
  {
    if t == [] then []
    else
      var k := FirstNewline(t);
      if k == |t| then [t] else [t[..k]] + SplitLines(t[k + 1..])
  }

  lemma FirstNewlineOfLine(e: string, rest: string)
    requires '\n' !in e
    ensures FirstNewline(e + "\n" + rest) == |e|
  {
    var t := e + "\n" + rest;
    var k := FirstNewline(t);
    assert forall i :: 0 <= i < |e| ==> t[i] == e[i];
    assert t[|e|] == '\n';
  }

  /** Reading a line file back gives the lines that were written. */
  lemma {:induction false} SplitTerminated(lines: seq<string>)
    requires forall i :: 0 <= i < |lines| ==> '\n' !in lines[i]
    ensures SplitLines(Terminated(lines)) == lines
    decreases |lines|
  {
    if lines != [] {
      var t := Terminated(lines);
      var rest := Terminated(lines[1..]);
      assert t == lines[0] + "\n" + rest;
      FirstNewlineOfLine(lines[0], rest);
      assert t[..|lines[0]|] == lines[0];
      assert t[|lines[0]| + 1..] == rest;
      SplitTerminated(lines[1..]);
    }
  }

  /** The sparse file read back line by line is the list of sparse entries. */
  lemma SparseFileRoundTrip(sparse: seq<string>)
    requires |sparse| > 0
    requires forall i :: 0 <= i < |sparse| ==> '\n' !in sparse[i]
    ensures SplitLines(SparseFileText(sparse)) == sparse
  {
    SparseFileTextLines(sparse);
    SplitTerminated(sparse);
  }

  /** `p.rstrip("/")`: the longest prefix of `p` that does not end in `/` and
      after which only slashes follow. */
  function RStripSlash(p: string): (r: string)
    ensures |r| <= |p| && r == p[..|r|]
    ensures r == [] || r[|r| - 1] != '/'
    ensures forall i :: |r| <= i < |p| ==> p[i] == '/'
    decreases |p|
  {
    if |p| > 0 && p[|p| - 1] == '/' then RStripSlash(p[..|p| - 1]) else p
  }

  /** Stripping twice strips nothing more. */
  lemma RStripSlashIdempotent(p: string)
    ensures RStripSlash(RStripSlash(p)) == RStripSlash(p)
  {
  }
}
