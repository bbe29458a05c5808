/**
 * The string operations the forms use: `trim`, `split(',')` and `join(sep)`.
 * Strings here are sequences of Unicode scalar values, where JavaScript's are
 * UTF-16 code units; on well-formed text (no unpaired surrogates) the two agree
 * for these operations, since every character they test lies in the Basic
 * Multilingual Plane.
 */
module Text {

  /**
   * The code points `String.prototype.trim` strips: ECMAScript's WhiteSpace
   * (tab, vertical tab, form feed, space, no-break space, byte-order mark and the
   * Unicode "Zs" separators) and LineTerminator (LF, CR, U+2028, U+2029).
   */
  predicate IsSpace(c: char) {
    || c == '\t' || c == '\n' || c == '\U{000B}' || c == '\U{000C}' || c == '\r'
    || c == ' ' || c == '\U{00A0}' || c == '\U{1680}'
    || ('\U{2000}' <= c <= '\U{200A}')
    || c == '\U{2028}' || c == '\U{2029}' || c == '\U{202F}' || c == '\U{205F}'
    || c == '\U{3000}' || c == '\U{FEFF}'
  }

  /** Neither end of the string is white space. */
  predicate Trimmed(s: string) {
    |s| == 0 || (!IsSpace(s[0]) && !IsSpace(s[|s| - 1]))
  }

  /** Drop leading white space: the result is the suffix after the leading run. */
  function TrimStart(s: string): (r: string)
    ensures |r| <= |s|
    ensures forall i :: 0 <= i < |r| ==> r[i] == s[|s| - |r| + i]
    ensures forall i :: 0 <= i < |s| - |r| ==> IsSpace(s[i])
    ensures |r| > 0 ==> !IsSpace(r[0])
    ensures forall c :: c in r ==> c in s
  {
    if |s| > 0 && IsSpace(s[0]) then TrimStart(s[1..]) else s
  }

  /** Drop trailing white space: the result is the prefix before the trailing run. */
  function TrimEnd(s: string): (r: string)
    ensures |r| <= |s|
    ensures forall i :: 0 <= i < |r| ==> r[i] == s[i]
    ensures forall i :: |r| <= i < |s| ==> IsSpace(s[i])
    ensures |r| > 0 ==> !IsSpace(r[|r| - 1])
    ensures forall c :: c in r ==> c in s
  {
    if |s| > 0 && IsSpace(s[|s| - 1]) then TrimEnd(s[..|s| - 1]) else s
  }

  /**
   * `s.trim()`: the slice of `s` left after cutting white space off both ends; the
   * slice is itself trimmed, so the cut runs are the whole leading and trailing runs.
   */
  function Trim(s: string): (r: string)
    ensures Trimmed(r)
    ensures r == [] <==> forall i :: 0 <= i < |s| ==> IsSpace(s[i])
    ensures forall i :: 0 <= i < |r| ==> r[i] in s
    ensures CutOfSpace(s, r)
  {
    TrimFacts(s);
    TrimSlice(s);
    TrimEnd(TrimStart(s))
  }

  /** `r` is `s` with a leading and a trailing run of white space cut off. */
  predicate CutOfSpace(s: string, r: string) {
    exists i, j :: 0 <= i <= j <= |s| && r == s[i..j] && SpaceOutside(s, i, j)
  }

  /** Everything before `i` and from `j` on is white space. */
  predicate SpaceOutside(s: string, i: int, j: int)
    requires 0 <= i <= j <= |s|
  {
    && (forall k :: 0 <= k < i ==> IsSpace(s[k]))
    && (forall k :: j <= k < |s| ==> IsSpace(s[k]))
  }

  /** The two passes cut a leading and a trailing run of white space. */
  lemma TrimSlice(s: string)
    ensures CutOfSpace(s, TrimEnd(TrimStart(s)))
  {
    var t := TrimStart(s);
    var i := |s| - |t|;
    assert t == s[i..];
    var r := TrimEnd(t);
    var j := i + |r|;
    SliceOfSlice(s, t, r, i);
    forall k | j <= k < |s| ensures IsSpace(s[k]) {
      assert s[k] == t[k - i];
    }
    assert 0 <= i <= j <= |s| && TrimEnd(TrimStart(s)) == s[i..j] && SpaceOutside(s, i, j);
  }

  /** What the two trimming passes together guarantee. */
  lemma TrimFacts(s: string)
    ensures Trimmed(TrimEnd(TrimStart(s)))
    ensures TrimEnd(TrimStart(s)) == [] <==> forall i :: 0 <= i < |s| ==> IsSpace(s[i])
    ensures forall i :: 0 <= i < |TrimEnd(TrimStart(s))| ==> TrimEnd(TrimStart(s))[i] in s
  {
    var t := TrimStart(s);
    TrimBothEnds(t, TrimEnd(t));
    if TrimEnd(t) == [] {
      TrimAllSpace(s, t);
    }
    TrimMembers(s, t, TrimEnd(t));
  }

  lemma TrimBothEnds(t: string, r: string)
    requires r == TrimEnd(t) && (|t| > 0 ==> !IsSpace(t[0]))
    ensures Trimmed(r)
  {
    if |r| > 0 {
      assert r[0] == t[0];
    }
  }

  lemma TrimMembers(s: string, t: string, r: string)
    requires forall c :: c in t ==> c in s
    requires forall c :: c in r ==> c in t
    ensures forall i :: 0 <= i < |r| ==> r[i] in s
  {
    forall i | 0 <= i < |r| ensures r[i] in s {
      assert r[i] in r;
    }
  }

  lemma TrimAllSpace(s: string, t: string)
    requires t == TrimStart(s) && TrimEnd(t) == []
    ensures forall i :: 0 <= i < |s| ==> IsSpace(s[i])
  {
    assert |t| == 0;
  }

  /**
   * The trim is determined by its contract: a non-empty trimmed slice with only
   * white space outside it is the trim.
   */
  lemma TrimIsTheSlice(s: string, i: nat, j: nat)
    requires i <= j <= |s| && SpaceOutside(s, i, j)
    requires s[i..j] != [] && Trimmed(s[i..j])
    ensures Trim(s) == s[i..j]
  {
    var r := Trim(s);
    assert !IsSpace(s[i]) by { assert s[i..j][0] == s[i]; }
    assert !IsSpace(s[j - 1]) by { assert s[i..j][j - i - 1] == s[j - 1]; }
    assert CutOfSpace(s, r);
    var a, b :| 0 <= a <= b <= |s| && r == s[a..b] && SpaceOutside(s, a, b);
    SameCut(s, a, b, i, j);
  }

  /** Two cuts with white space outside and a non-space at each end are the same cut. */
  lemma SameCut(s: string, a: nat, b: nat, i: nat, j: nat)
    requires a <= b <= |s| && SpaceOutside(s, a, b) && Trimmed(s[a..b])
    requires i < j <= |s| && SpaceOutside(s, i, j) && !IsSpace(s[i]) && !IsSpace(s[j - 1])
    ensures a == i && b == j
  {
    assert a < b;
    assert !IsSpace(s[a]) by { assert s[a..b][0] == s[a]; }
    assert !IsSpace(s[b - 1]) by { assert s[a..b][b - a - 1] == s[b - 1]; }
  }

  /** A prefix of a suffix of `s` is a slice of `s`. */
  lemma SliceOfSlice(s: string, t: string, r: string, i: nat)
    requires i <= |s| && |t| == |s| - i && forall k :: 0 <= k < |t| ==> t[k] == s[|s| - |t| + k]
    requires |r| <= |t| && forall k :: 0 <= k < |r| ==> r[k] == t[k]
    ensures r == s[i..i + |r|]
  {
  }

  /** A trimmed string is its own trim. */
  lemma TrimOfTrimmed(s: string)
    requires Trimmed(s)
    ensures Trim(s) == s
  {
  }

  /** Trimming twice is trimming once. */
  lemma TrimIdempotent(s: string)
    ensures Trim(Trim(s)) == Trim(s)
  {
    TrimOfTrimmed(Trim(s));
  }

  /** Leading white space does not survive a trim. */
  lemma {:induction false} TrimSkipsLeadingSpace(pre: string, s: string)
    requires forall i :: 0 <= i < |pre| ==> IsSpace(pre[i])
    requires Trimmed(s) && s != []
    ensures Trim(pre + s) == s
    decreases |pre|
  {
    if |pre| == 0 {
      assert pre + s == s;
      TrimOfTrimmed(s);
    } else {
      assert (pre + s)[1..] == pre[1..] + s;
      TrimSkipsLeadingSpace(pre[1..], s);
    }
  }

  /** `s.split(sep)`: the pieces between separators, always at least one. */
  function Split(s: string, sep: char): (r: seq<string>)
    ensures |r| >= 1
    ensures forall k :: 0 <= k < |r| ==> sep !in r[k]
    decreases |s|
  {
    if |s| == 0 then [""]
    else
      var rest := Split(s[1..], sep);
      if s[0] == sep then [""] + rest
      else [[s[0]] + rest[0]] + rest[1..]
  }

  /** `pieces.join(sep)`. */
  function Join(pieces: seq<string>, sep: string): (r: string)
    ensures |pieces| == 1 ==> r == pieces[0]
    decreases |pieces|
  {
    if |pieces| == 0 then ""
    else if |pieces| == 1 then pieces[0]
    else pieces[0] + sep + Join(pieces[1..], sep)
  }

  /** Joining two non-empty runs of pieces puts one separator between them. */
  lemma {:induction false} JoinAppend(a: seq<string>, b: seq<string>, sep: string)
    requires |a| >= 1 && |b| >= 1
    ensures Join(a + b, sep) == Join(a, sep) + sep + Join(b, sep)
    decreases |a|
  {
    if |a| == 1 {
      assert (a + b)[1..] == b;
    } else {
      assert (a + b)[1..] == a[1..] + b;
      JoinAppend(a[1..], b, sep);
    }
  }

  /** Round trip: joining the pieces of a split with the separator gives back the string. */
  lemma {:induction false} JoinSplit(s: string, sep: char)
    ensures Join(Split(s, sep), [sep]) == s
    decreases |s|
  {
    if |s| > 0 {
      var rest := Split(s[1..], sep);
      JoinSplit(s[1..], sep);
      if s[0] == sep {
        JoinAppend([""], rest, [sep]);
      } else if |rest| == 1 {
        assert s == [s[0]] + s[1..];
      } else {
        JoinAppend([rest[0]], rest[1..], [sep]);
        assert rest == [rest[0]] + rest[1..];
        JoinAppend([[s[0]] + rest[0]], rest[1..], [sep]);
        assert s == [s[0]] + s[1..];
      }
    }
  }

  /** Round trip the other way: splitting a join of separator-free pieces gives back the pieces. */
  lemma {:induction false} SplitJoin(pieces: seq<string>, sep: char)
    requires |pieces| >= 1
    requires forall k :: 0 <= k < |pieces| ==> sep !in pieces[k]
    ensures Split(Join(pieces, [sep]), sep) == pieces
    decreases |pieces|, |pieces[0]|
  {
    var p := pieces[0];
    if |p| > 0 {
      // Peel the first character off the first piece.
      var pieces' := [p[1..]] + pieces[1..];
      SplitJoin(pieces', sep);
      JoinHead(pieces, sep);
      var x := Join(pieces', [sep]);
      assert Join(pieces, [sep]) == [p[0]] + x;
      assert ([p[0]] + x)[1..] == x;
      assert p[0] != sep by { assert p[0] in pieces[0]; }
      assert [p[0]] + p[1..] == p;
      assert pieces == [p] + pieces[1..];
    } else if |pieces| == 1 {
    } else {
      SplitJoin(pieces[1..], sep);
      JoinAppend([p], pieces[1..], [sep]);
      assert Join(pieces, [sep]) == [sep] + Join(pieces[1..], [sep]);
      assert pieces == [""] + pieces[1..];
    }
  }

  /** The join starts with the first piece. */
  lemma JoinHead(pieces: seq<string>, sep: char)
    requires |pieces| >= 1 && |pieces[0]| > 0
    ensures Join(pieces, [sep]) == [pieces[0][0]] + Join([pieces[0][1..]] + pieces[1..], [sep])
  {
    var p := pieces[0];
    assert p == [p[0]] + p[1..];
    if |pieces| > 1 {
      assert ([p[1..]] + pieces[1..])[1..] == pieces[1..];
    }
  }

  /** Splitting distributes over a separator placed between two strings. */
  lemma SplitAtSeparator(a: string, b: string, sep: char)
    ensures Split(a + [sep] + b, sep) == Split(a, sep) + Split(b, sep)
  {
    var pa, pb := Split(a, sep), Split(b, sep);
    JoinSplit(a, sep);
    JoinSplit(b, sep);
    JoinAppend(pa, pb, [sep]);
    assert a + [sep] + b == Join(pa + pb, [sep]);
    NoSeparatorInPieces(pa, pb, sep);
    SplitJoin(pa + pb, sep);
  }

  lemma NoSeparatorInPieces(pa: seq<string>, pb: seq<string>, sep: char)
    requires forall k :: 0 <= k < |pa| ==> sep !in pa[k]
    requires forall k :: 0 <= k < |pb| ==> sep !in pb[k]
    ensures forall k :: 0 <= k < |pa + pb| ==> sep !in (pa + pb)[k]
  {
    forall k | 0 <= k < |pa + pb| ensures sep !in (pa + pb)[k] {
      if k < |pa| {
        assert (pa + pb)[k] == pa[k];
      } else {
        assert (pa + pb)[k] == pb[k - |pa|];
      }
    }
  }

  /** `pieces.map((s) => s.trim())`. */
  function TrimAll(pieces: seq<string>): (r: seq<string>)
    ensures |r| == |pieces|
    ensures forall i :: 0 <= i < |pieces| ==> r[i] == Trim(pieces[i])
  {
    seq(|pieces|, i requires 0 <= i < |pieces| => Trim(pieces[i]))
  }

  /** Trimming piecewise distributes over concatenation. */
  lemma TrimAllAppend(a: seq<string>, b: seq<string>)
    ensures TrimAll(a + b) == TrimAll(a) + TrimAll(b)
  {
  }

  /** `pieces.filter((s) => s)`: the non-empty strings, in their order. */
  function DropBlank(pieces: seq<string>): (r: seq<string>)
    ensures |r| <= |pieces|
    ensures forall i :: 0 <= i < |r| ==> r[i] != "" && r[i] in pieces
    ensures (forall i :: 0 <= i < |pieces| ==> pieces[i] != "") ==> r == pieces
    decreases |pieces|
  {
    if |pieces| == 0 then []
    else (if pieces[0] == "" then [] else [pieces[0]]) + DropBlank(pieces[1..])
  }

  /** The filter keeps every non-empty string of the input. */
  lemma {:induction false} DropBlankKeeps(pieces: seq<string>, i: nat)
    requires i < |pieces| && pieces[i] != ""
    ensures pieces[i] in DropBlank(pieces)
    decreases i
  {
    if i > 0 {
      DropBlankKeeps(pieces[1..], i - 1);
    }
  }

  /** Filtering distributes over concatenation. */
  lemma {:induction false} DropBlankAppend(a: seq<string>, b: seq<string>)
    ensures DropBlank(a + b) == DropBlank(a) + DropBlank(b)
    decreases |a|
  {
    if |a| == 0 {
      assert a + b == b;
    } else {
      assert (a + b)[1..] == a[1..] + b;
      DropBlankAppend(a[1..], b);
    }
  }
}
