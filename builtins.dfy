/**
 * The Python string and list built-ins that `fetch_public_id` is made of:
 * `str.rstrip(c)`, `str.split(sep)` for a one-character separator, and
 * indexing a list with `[-1]`.
 */
module Builtins {
  import opened Wrappers

  /** Raised by `xs[-1]` on an empty list. */
  datatype IndexError = IndexError

  /** `s.rstrip(c)`: `s` without its trailing run of `c`. */
  function RStrip(s: string, c: char): (r: string)
    ensures r <= s
    ensures r == [] || r[|r| - 1] != c
    ensures forall i :: |r| <= i < |s| ==> s[i] == c
    decreases |s|
  {
    if s != [] && s[|s| - 1] == c then RStrip(s[..|s| - 1], c) else s
  }

  /** The inverse of `Split`: `sep.join(pieces)`. Python's join of an empty list is
      never needed here, because `Split` always yields at least one piece. */
  function Join(pieces: seq<string>, sep: char): string
    requires |pieces| >= 1
    decreases |pieces|
  {
    if |pieces| == 1 then pieces[0]
    else Join(pieces[..|pieces| - 1], sep) + [sep] + pieces[|pieces| - 1]
  }

  /**
   * `s.split(sep)`: the pieces of `s` between occurrences of `sep`, in order,
   * including empty pieces; the empty string splits into one empty piece.
   * Built here from the right, one character at a time.
   */
  function Split(s: string, sep: char): (r: seq<string>)
    ensures |r| >= 1
    ensures forall i :: 0 <= i < |r| ==> sep !in r[i]
    ensures Join(r, sep) == s
    decreases |s|
  {
    if s == [] then [[]]
    else
      var init := Split(s[..|s| - 1], sep);
      var c := s[|s| - 1];
      assert s == s[..|s| - 1] + [c];
      if c == sep then
        assert (init + [[]])[..|init|] == init;
        init + [[]]
      else
        JoinExtendLast(init, sep, c);
        init[|init| - 1 := init[|init| - 1] + [c]]
  }

  /** `xs[-1]`: the final element, or `IndexError` exactly when the list is empty. */
  function Last<T>(xs: seq<T>): (r: Result<T, IndexError>)
    ensures r.Ok? <==> xs != []
    ensures r.Ok? ==> r.value == xs[|xs| - 1]
  {
    if xs == [] then Err(IndexError) else Ok(xs[|xs| - 1])
  }

  /** The part of `s` after its final `sep`, or all of `s` when it holds none:
      the longest suffix of `s` free of `sep`. */
  function AfterLast(s: string, sep: char): (r: string)
    ensures sep !in r
    ensures |r| <= |s| && r == s[|s| - |r|..]
    ensures |r| == |s| || s[|s| - |r| - 1] == sep
    decreases |s|
  {
    if s == [] || s[|s| - 1] == sep then [] else AfterLast(s[..|s| - 1], sep) + [s[|s| - 1]]
  }

  /** Extending the last piece by one character extends the joined string by it. */
  lemma JoinExtendLast(pieces: seq<string>, sep: char, c: char)
    requires |pieces| >= 1
    ensures Join(pieces[|pieces| - 1 := pieces[|pieces| - 1] + [c]], sep) == Join(pieces, sep) + [c]
  {
    var n := |pieces|;
    if n > 1 {
      var q := pieces[n - 1 := pieces[n - 1] + [c]];
      assert q[..n - 1] == pieces[..n - 1];
    }
  }

  /** Splitting what was joined gives back the pieces, when none holds the separator. */
  lemma {:induction false} SplitJoin(pieces: seq<string>, sep: char)
    requires |pieces| >= 1
    requires forall i :: 0 <= i < |pieces| ==> sep !in pieces[i]
    ensures Split(Join(pieces, sep), sep) == pieces
    decreases |pieces|, |pieces[|pieces| - 1]|, 1
  {
    var n := |pieces|;
    if pieces[n - 1] == [] {
      if n > 1 {
        SplitJoinEmptyLast(pieces, sep);
      }
    } else {
      SplitJoinNonEmptyLast(pieces, sep);
    }
  }

  lemma {:induction false} SplitJoinEmptyLast(pieces: seq<string>, sep: char)
    requires |pieces| >= 2 && pieces[|pieces| - 1] == []
    requires forall i :: 0 <= i < |pieces| ==> sep !in pieces[i]
    ensures Split(Join(pieces, sep), sep) == pieces
    decreases |pieces|, |pieces[|pieces| - 1]|, 0
  {
    var n := |pieces|;
    var front := pieces[..n - 1];
    SplitJoin(front, sep);
    var s := Join(pieces, sep);
    assert s == Join(front, sep) + [sep];
    assert s[..|s| - 1] == Join(front, sep);
    assert pieces == front + [[]];
  }

  lemma {:induction false} SplitJoinNonEmptyLast(pieces: seq<string>, sep: char)
    requires |pieces| >= 1 && pieces[|pieces| - 1] != []
    requires forall i :: 0 <= i < |pieces| ==> sep !in pieces[i]
    ensures Split(Join(pieces, sep), sep) == pieces
    decreases |pieces|, |pieces[|pieces| - 1]|, 0
  {
    var n := |pieces|;
    var last := pieces[n - 1];
    var c := last[|last| - 1];
    var shorter := pieces[n - 1 := last[..|last| - 1]];
    assert c != sep by { assert c in pieces[n - 1]; }
    assert forall i :: 0 <= i < |shorter| ==> sep !in shorter[i] by {
      forall i | 0 <= i < |shorter| ensures sep !in shorter[i] {
        if i == n - 1 {
          assert forall x :: x in shorter[i] ==> x in last;
        }
      }
    }
    assert pieces == shorter[n - 1 := shorter[n - 1] + [c]] by {
      assert last == last[..|last| - 1] + [c];
    }
    var t := Join(shorter, sep);
    assert Join(pieces, sep) == t + [c] by {
      JoinExtendLast(shorter, sep, c);
    }
    assert Split(t + [c], sep) == pieces by {
      SplitJoin(shorter, sep);
      SplitSnoc(t, sep, c);
    }
  }

  /** Splitting after one more non-separator character extends the last piece. */
  lemma SplitSnoc(t: string, sep: char, c: char)
    requires c != sep
    ensures var r := Split(t, sep); Split(t + [c], sep) == r[|r| - 1 := r[|r| - 1] + [c]]
  {
    var s := t + [c];
    assert s[..|s| - 1] == t;
  }

  /** A string free of the separator splits into itself alone. */
  lemma SplitOfSeparatorFree(s: string, sep: char)
    requires sep !in s
    ensures Split(s, sep) == [s]
  {
    SplitJoin([s], sep);
  }

  /** The last piece of `s.split(sep)` is exactly what follows the final separator. */
  lemma {:induction false} LastPieceIsAfterLast(s: string, sep: char)
    ensures Split(s, sep)[|Split(s, sep)| - 1] == AfterLast(s, sep)
    decreases |s|
  {
    if s != [] {
      LastPieceIsAfterLast(s[..|s| - 1], sep);
    }
  }

  /** Whatever precedes the final separator does not affect what follows it. */
  lemma {:induction false} AfterLastOfSuffix(prefix: string, sep: char, t: string)
    requires sep !in t
    ensures AfterLast(prefix + [sep] + t, sep) == t
    decreases |t|
  {
    var s := prefix + [sep] + t;
    if t == [] {
    } else {
      var t' := t[..|t| - 1];
      assert s[..|s| - 1] == prefix + [sep] + t';
      assert t[|t| - 1] in t;
      AfterLastOfSuffix(prefix, sep, t');
      assert t == t' + [t[|t| - 1]];
    }
  }

  /** Appending one more `c` does not change `rstrip(c)`. */
  lemma RStripAppend(s: string, c: char)
    ensures RStrip(s + [c], c) == RStrip(s, c)
  {
    assert (s + [c])[..|s|] == s;
  }
}
