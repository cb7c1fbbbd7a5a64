/** Tokenisation of a document: Python's `text.split(" ")` followed by `set(...)`.
    Splitting is on the single space character and keeps empty pieces, so the
    empty text, a leading or trailing space and every run of two or more spaces
    yield the empty token. */
module Tokenize {

  const Space: char := ' '

  /** `s.split(sep)` for a one-character separator: the maximal pieces of `s`
      between separators, empty pieces included. */
  function Split(s: string, sep: char): (pieces: seq<string>)
    ensures |pieces| >= 1
    ensures forall k :: 0 <= k < |pieces| ==> sep !in pieces[k]
    decreases |s|
  {
    if |s| == 0 then [""]
    else
      var rest := Split(s[1..], sep);
      if s[0] == sep then [""] + rest
      else [[s[0]] + rest[0]] + rest[1..]
  }

  /** `sep.join(pieces)`: the inverse of Split. */
  function Join(pieces: seq<string>, sep: char): string
    requires |pieces| >= 1
    decreases |pieces|
  {
    if |pieces| == 1 then pieces[0] else pieces[0] + [sep] + Join(pieces[1..], sep)
  }

  /** The distinct tokens of a document, `set(text.split(" "))`. */
  function Tokens(text: string): (words: set<string>)
    ensures words != {}
  {
    var pieces := Split(text, Space);
    var words := set p | p in pieces;
    assert pieces[0] in words;
    words
  }

  /** Splitting loses nothing: joining the pieces gives the text back. */
  lemma {:induction false} JoinSplit(s: string, sep: char)
    ensures Join(Split(s, sep), sep) == s
    decreases |s|
  {
    if |s| > 0 {
      JoinSplit(s[1..], sep);
      var rest := Split(s[1..], sep);
      if s[0] == sep {
        assert Split(s, sep)[1..] == rest;
        assert s == [s[0]] + s[1..];
      } else if |rest| == 1 {
        assert s == [s[0]] + rest[0];
      } else {
        var pieces := Split(s, sep);
        assert pieces[1..] == rest[1..];
        assert Join(rest, sep) == rest[0] + [sep] + Join(rest[1..], sep);
        assert s == [s[0]] + s[1..];
      }
    }
  }

  /** A separator-free piece followed by a separator splits off as one piece. */
  lemma {:induction false} SplitAfterPiece(p: string, sep: char, t: string)
    requires sep !in p
    ensures Split(p + [sep] + t, sep) == [p] + Split(t, sep)
    decreases |p|
  {
    var s := p + [sep] + t;
    if |p| == 0 {
      assert s[1..] == t;
    } else {
      assert s[1..] == p[1..] + [sep] + t;
      SplitAfterPiece(p[1..], sep, t);
      assert [p[0]] + p[1..] == p;
    }
  }

  /** A separator-free text is a single piece. */
  lemma {:induction false} SplitSinglePiece(p: string, sep: char)
    requires sep !in p
    ensures Split(p, sep) == [p]
    decreases |p|
  {
    if |p| > 0 {
      SplitSinglePiece(p[1..], sep);
      assert [p[0]] + p[1..] == p;
    }
  }

  /** Splitting a join of separator-free pieces gives the pieces back, empty ones included. */
  lemma {:induction false} SplitJoin(pieces: seq<string>, sep: char)
    requires |pieces| >= 1
    requires forall k :: 0 <= k < |pieces| ==> sep !in pieces[k]
    ensures Split(Join(pieces, sep), sep) == pieces
    decreases |pieces|
  {
    if |pieces| == 1 {
      SplitSinglePiece(pieces[0], sep);
    } else {
      SplitJoin(pieces[1..], sep);
      SplitAfterPiece(pieces[0], sep, Join(pieces[1..], sep));
      assert [pieces[0]] + pieces[1..] == pieces;
    }
  }

  /** The empty document has exactly one token, the empty word. */
  lemma EmptyTextToken()
    ensures Tokens("") == {""}
  {
    assert Split("", Space) == [""];
  }

  /** Joining two non-empty lists of pieces puts one separator between their joins. */
  lemma {:induction false} JoinAppend(ps: seq<string>, qs: seq<string>, sep: char)
    requires |ps| >= 1 && |qs| >= 1
    ensures Join(ps + qs, sep) == Join(ps, sep) + [sep] + Join(qs, sep)
    decreases |ps|
  {
    if |ps| > 1 {
      assert (ps + qs)[1..] == ps[1..] + qs;
      JoinAppend(ps[1..], qs, sep);
    }
  }

  /** A text starting with a separator has an empty first piece. */
  lemma LeadingSeparator(s: string, sep: char)
    requires |s| > 0 && s[0] == sep
    ensures "" in Split(s, sep)
  {
    assert Split(s, sep)[0] == "";
  }

  /** A text ending with a separator has an empty last piece. */
  lemma TrailingSeparator(s: string, sep: char)
    requires |s| > 0 && s[|s| - 1] == sep
    ensures "" in Split(s, sep)
  {
    var t := s[..|s| - 1];
    var pieces := Split(t, sep) + [""];
    JoinSplit(t, sep);
    JoinAppend(Split(t, sep), [""], sep);
    assert t + [sep] + "" == s;
    SplitJoin(pieces, sep);
    assert pieces[|pieces| - 1] == "";
  }

  /** Two adjacent separators enclose an empty piece. */
  lemma AdjacentSeparators(s: string, sep: char, i: nat)
    requires i + 1 < |s| && s[i] == sep && s[i + 1] == sep
    ensures "" in Split(s, sep)
  {
    var a, b := s[..i], s[i + 2..];
    var rest := [""] + Split(b, sep);
    var pieces := Split(a, sep) + rest;
    JoinSplit(a, sep);
    JoinSplit(b, sep);
    assert rest[1..] == Split(b, sep);
    JoinAppend(Split(a, sep), rest, sep);
    assert a + [sep] + ("" + [sep] + b) == s;
    SplitJoin(pieces, sep);
    assert pieces[|Split(a, sep)|] == "";
  }

  /** The empty word is a token of every text that is empty, starts or ends
      with a space, or has two adjacent spaces. */
  lemma EmptyToken(s: string)
    requires || s == ""
             || s[0] == Space
             || s[|s| - 1] == Space
             || exists i :: 0 <= i < |s| - 1 && s[i] == Space && s[i + 1] == Space
    ensures "" in Tokens(s)
  {
    if s == "" {
      EmptyTextToken();
    } else if s[0] == Space {
      LeadingSeparator(s, Space);
    } else if s[|s| - 1] == Space {
      TrailingSeparator(s, Space);
    } else {
      var i :| 0 <= i < |s| - 1 && s[i] == Space && s[i + 1] == Space;
      AdjacentSeparators(s, Space, i);
    }
  }
}
