/**
 * `String.split(regex)` for a regular expression that matches one literal
 * character (`"\\."`, `"\\$"`, the line separator): cut at every occurrence,
 * then drop the trailing empty pieces; a string without the separator comes
 * back whole, even the empty string.
 */
module JavaSplit {

  /** All pieces between occurrences of `sep`, empty ones included. */
  function Pieces(s: string, sep: char): (r: seq<string>)
    ensures |r| >= 1
    decreases |s|
  {
    if s == [] then [[]]
    else if s[0] == sep then [[]] + Pieces(s[1..], sep)
    else var p := Pieces(s[1..], sep); [[s[0]] + p[0]] + p[1..]
  }

  /** The pieces rejoined with `sep` between them. */
  function Join(ps: seq<string>, sep: char): string
    decreases |ps|
  {
    if |ps| == 0 then []
    else if |ps| == 1 then ps[0]
    else ps[0] + [sep] + Join(ps[1..], sep)
  }

  /** Every line followed by `sep`, as a `StringBuilder` loop appending `line + LINE_SEP` builds it. */
  function JoinTerminated(lines: seq<string>, sep: char): string
    decreases |lines|
  {
    if |lines| == 0 then [] else lines[0] + [sep] + JoinTerminated(lines[1..], sep)
  }

  /** Removes empty pieces from the end. */
  function DropTrailingEmpty(ps: seq<string>): (r: seq<string>)
    ensures r <= ps
    ensures |r| > 0 ==> r[|r| - 1] != []
    ensures forall i :: |r| <= i < |ps| ==> ps[i] == []
    decreases |ps|
  {
    if |ps| > 0 && ps[|ps| - 1] == [] then DropTrailingEmpty(ps[..|ps| - 1]) else ps
  }

  /** Java's `s.split(sep)` for a one-character literal separator. */
  function Split(s: string, sep: char): seq<string> {
    if sep !in s then [s] else DropTrailingEmpty(Pieces(s, sep))
  }

  // ---------------------------------------------------------------------------
  // Properties.
  // ---------------------------------------------------------------------------

  lemma {:induction false} PiecesHaveNoSep(s: string, sep: char)
    ensures forall i :: 0 <= i < |Pieces(s, sep)| ==> sep !in Pieces(s, sep)[i]
    decreases |s|
  {
    if s != [] {
      PiecesHaveNoSep(s[1..], sep);
    }
  }

  lemma {:induction false} PiecesWithoutSep(s: string, sep: char)
    requires sep !in s
    ensures Pieces(s, sep) == [s]
    decreases |s|
  {
    if s != [] {
      PiecesWithoutSep(s[1..], sep);
      assert [s[0]] + s[1..] == s;
    }
  }

  /** Cutting at one occurrence of `sep` splits the piece lists apart. */
  lemma {:induction false} PiecesAtSep(x: string, y: string, sep: char)
    ensures Pieces(x + [sep] + y, sep) == Pieces(x, sep) + Pieces(y, sep)
    decreases |x|
  {
    if x == [] {
      assert x + [sep] + y == [sep] + y;
      assert (x + [sep] + y)[1..] == y;
    } else {
      var s := x + [sep] + y;
      assert s[0] == x[0] && s[1..] == x[1..] + [sep] + y;
      PiecesAtSep(x[1..], y, sep);
      if x[0] != sep {
        PrependToFirst([x[0]], Pieces(x[1..], sep), Pieces(y, sep));
      }
    }
  }

  /** Gluing `c` onto the first piece commutes with appending more pieces. */
  lemma PrependToFirst(c: string, px: seq<string>, py: seq<string>)
    requires |px| >= 1
    ensures [c + (px + py)[0]] + (px + py)[1..] == [c + px[0]] + px[1..] + py
  {
    assert (px + py)[0] == px[0];
    assert (px + py)[1..] == px[1..] + py;
  }

  /** Rejoining the raw pieces gives back the string. */
  lemma {:induction false} JoinPieces(s: string, sep: char)
    ensures Join(Pieces(s, sep), sep) == s
    decreases |s|
  {
    if s != [] {
      JoinPieces(s[1..], sep);
      var p := Pieces(s[1..], sep);
      if s[0] != sep {
        var q := Pieces(s, sep);
        assert q == [[s[0]] + p[0]] + p[1..];
        if |p| == 1 {
          assert Join(q, sep) == [s[0]] + p[0];
        } else {
          assert q[1..] == p[1..];
          assert Join(p, sep) == p[0] + [sep] + Join(p[1..], sep);
        }
      } else {
        assert Pieces(s, sep) == [[]] + p;
      }
    }
  }

  /** No piece of a split contains the separator. */
  lemma SplitHasNoSep(s: string, sep: char)
    ensures forall i :: 0 <= i < |Split(s, sep)| ==> sep !in Split(s, sep)[i]
  {
    PiecesHaveNoSep(s, sep);
  }

  lemma {:induction false} JoinDropTrailing(ps: seq<string>, sep: char)
    ensures Join(DropTrailingEmpty(ps), sep) <= Join(ps, sep)
    ensures forall i :: |Join(DropTrailingEmpty(ps), sep)| <= i < |Join(ps, sep)| ==> Join(ps, sep)[i] == sep
    decreases |ps|
  {
    if |ps| > 0 && ps[|ps| - 1] == [] {
      var init := ps[..|ps| - 1];
      JoinDropTrailing(init, sep);
      JoinSnoc(init, sep);
      assert ps == init + [[]];
    }
  }

  /** Appending an empty piece appends one separator (except to no pieces at all). */
  lemma {:induction false} JoinSnoc(ps: seq<string>, sep: char)
    ensures |ps| == 0 ==> Join(ps + [[]], sep) == []
    ensures |ps| > 0 ==> Join(ps + [[]], sep) == Join(ps, sep) + [sep]
    decreases |ps|
  {
    if |ps| > 1 {
      JoinSnoc(ps[1..], sep);
      assert (ps + [[]])[1..] == ps[1..] + [[]];
    } else if |ps| == 1 {
      assert (ps + [[]])[1..] == [[]];
    }
  }

  /**
   * Splitting loses only trailing separators: the pieces rejoined are a prefix
   * of the string and what is missing is separators only.
   */
  lemma SplitRejoin(s: string, sep: char)
    ensures Join(Split(s, sep), sep) <= s
    ensures forall i :: |Join(Split(s, sep), sep)| <= i < |s| ==> s[i] == sep
  {
    if sep in s {
      JoinPieces(s, sep);
      JoinDropTrailing(Pieces(s, sep), sep);
    }
  }

  /**
   * Lines that are non-empty and free of the separator survive a round trip
   * through "append each with a separator" and `split`.
   */
  lemma SplitTerminated(lines: seq<string>, sep: char)
    requires |lines| > 0
    requires forall i :: 0 <= i < |lines| ==> lines[i] != [] && sep !in lines[i]
    ensures Split(JoinTerminated(lines, sep), sep) == lines
  {
    PiecesTerminated(lines, sep);
    var s := JoinTerminated(lines, sep);
    assert s[|lines[0]|] == sep;
    assert lines + [[]] == (lines + [[]])[..|lines|] + [[]];
    assert (lines + [[]])[..|lines|] == lines;
  }

  lemma {:induction false} PiecesTerminated(lines: seq<string>, sep: char)
    requires forall i :: 0 <= i < |lines| ==> sep !in lines[i]
    ensures Pieces(JoinTerminated(lines, sep), sep) == lines + [[]]
    decreases |lines|
  {
    if |lines| > 0 {
      PiecesTerminated(lines[1..], sep);
      PiecesAtSep(lines[0], JoinTerminated(lines[1..], sep), sep);
      PiecesWithoutSep(lines[0], sep);
      assert lines == [lines[0]] + lines[1..];
    }
  }

  /** Appending one more line to a terminated text appends that line and a separator. */
  lemma {:induction false} JoinTerminatedSnoc(lines: seq<string>, line: string, sep: char)
    ensures JoinTerminated(lines + [line], sep) == JoinTerminated(lines, sep) + line + [sep]
    decreases |lines|
  {
    if |lines| == 0 {
      assert JoinTerminated([line], sep) == line + [sep] + JoinTerminated([], sep);
    } else {
      JoinTerminatedSnoc(lines[1..], line, sep);
      assert (lines + [line])[1..] == lines[1..] + [line];
    }
  }

  /** The raw pieces are all empty exactly when the string is made of separators only. */
  lemma {:induction false} PiecesAllEmpty(s: string, sep: char)
    ensures (forall i :: 0 <= i < |Pieces(s, sep)| ==> Pieces(s, sep)[i] == []) <==> (forall j :: 0 <= j < |s| ==> s[j] == sep)
    decreases |s|
  {
    if s != [] {
      PiecesAllEmpty(s[1..], sep);
      var p := Pieces(s[1..], sep);
      if s[0] == sep {
        var q := Pieces(s, sep);
        assert q == [[]] + p;
        assert (forall i :: 0 <= i < |q| ==> q[i] == []) <==> (forall i :: 0 <= i < |p| ==> p[i] == []) by {
          assert q[0] == [];
          assert forall i :: 1 <= i < |q| ==> q[i] == p[i - 1];
          assert forall i :: 0 <= i < |p| ==> p[i] == q[i + 1];
        }
        assert (forall j :: 0 <= j < |s| ==> s[j] == sep) <==> (forall j :: 0 <= j < |s[1..]| ==> s[1..][j] == sep) by {
          assert forall j :: 1 <= j < |s| ==> s[j] == s[1..][j - 1];
        }
      } else {
        assert Pieces(s, sep)[0] != [];
      }
    }
  }

  /** Dropping trailing empty pieces leaves nothing exactly when every piece was empty. */
  lemma DropTrailingEmptyNone(ps: seq<string>)
    ensures DropTrailingEmpty(ps) == [] <==> forall i :: 0 <= i < |ps| ==> ps[i] == []
  {
  }

  /** A split comes back empty exactly when the string is a non-empty run of separators. */
  lemma SplitEmpty(s: string, sep: char)
    ensures Split(s, sep) == [] <==> |s| > 0 && forall j :: 0 <= j < |s| ==> s[j] == sep
  {
    PiecesAllEmpty(s, sep);
    DropTrailingEmptyNone(Pieces(s, sep));
    if |s| > 0 && forall j :: 0 <= j < |s| ==> s[j] == sep {
      assert s[0] == sep;
    }
  }

  /** When the first piece is not empty it survives the dropping of trailing pieces. */
  lemma DropTrailingKeepsFirst(ps: seq<string>)
    requires |ps| > 0 && ps[0] != []
    ensures |DropTrailingEmpty(ps)| > 0 && DropTrailingEmpty(ps)[0] == ps[0]
  {
  }

  /** With a non-empty last piece nothing is dropped. */
  lemma DropTrailingKeepsAll(ps: seq<string>)
    requires |ps| > 0 && ps[|ps| - 1] != []
    ensures DropTrailingEmpty(ps) == ps
  {
  }
}
