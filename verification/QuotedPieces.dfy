/** The stretches of a text between quotes, and what a pattern can capture between two of them. */
module QuotedPieces {
  import opened Common
  import opened Text
  import opened Patterns

  predicate Shows(s: string) {
    s == "" || !AllSpace(s)
  }

  /** Every stretch between quotes, and at either end, is empty or has more than white space. */
  predicate PiecesShow(s: string) {
    forall i :: 0 <= i < |Split(s, '"')| ==> Shows(Split(s, '"')[i])
  }

  predicate LaterPiecesShow(s: string) {
    forall i :: 1 <= i < |Split(s, '"')| ==> Shows(Split(s, '"')[i])
  }

  lemma {:induction false} SplitAfter(u: string, s: string)
    requires '"' !in u
    ensures Split(u + s, '"') == [u + Split(s, '"')[0]] + Split(s, '"')[1..]
  {
    if u == "" {
      assert u + s == s && u + Split(s, '"')[0] == Split(s, '"')[0];
    } else {
      assert (u + s)[1..] == u[1..] + s;
      SplitAfter(u[1..], s);
      Assoc([u[0]], u[1..], Split(s, '"')[0]);
      HeadTail(u);
    }
  }

  lemma AddPiece(u: string, s: string)
    requires '"' !in u && Shows(u) && PiecesShow(s)
    ensures PiecesShow(u + s)
  {
    SplitAfter(u, s);
    var first := Split(s, '"')[0];
    if u == "" {
      assert u + first == first;
    } else {
      var i :| 0 <= i < |u| && !IsWhitespace(u[i]);
      assert (u + first)[i] == u[i];
    }
    assert Shows(first);
  }

  lemma AddQuote(s: string)
    requires PiecesShow(s)
    ensures PiecesShow("\"" + s)
  {
    assert ("\"" + s)[1..] == s;
    assert Split("\"" + s, '"') == [""] + Split(s, '"');
  }

  lemma ShowsAt(s: string, i: nat)
    requires i < |s| && !IsWhitespace(s[i])
    ensures Shows(s)
  {
  }

  lemma EmptyShows()
    ensures PiecesShow("")
  {
  }

  lemma {:induction false} SuffixShows(s: string, t: string)
    requires LaterPiecesShow(s) && IsSuffix(t, s)
    ensures LaterPiecesShow(t)
    decreases |s|
  {
    if |t| < |s| {
      var parts := Split(s[1..], '"');
      assert Split(s, '"')[1..] == if s[0] == '"' then parts else parts[1..];
      assert forall i :: 1 <= i < |parts| ==>
               parts[i] == Split(s, '"')[if s[0] == '"' then i + 1 else i];
      assert t == s[1..][|s| - 1 - |t|..];
      SuffixShows(s[1..], t);
    } else {
      assert s[0..] == s;
    }
  }

  lemma QuotedShape(next: Pattern, s: string) returns (x: string, tail: string)
    requires MatchHere(Lit("\"", Run('"', 1, Lit("\"", next))), s).Some?
    ensures s == "\"" + (x + (['"'] + tail)) && x != "" && '"' !in x
    ensures MatchHere(Lit("\"", Run('"', 1, Lit("\"", next))), s).value.groups[0] == x
  {
    hide RunLength, IsSuffix, LaterPiecesShow;
    var t := s[1..];
    var n := RunLength(t, '"');
    assert MatchHere(Run('"', 1, Lit("\"", next)), t).Some?;
    assert MatchHere(Lit("\"", next), t[n..]).Some?;
    hide MatchHere;
    x, tail := t[..n], t[n..][1..];
    assert t[n..] == ['"'] + tail;
    assert t == x + t[n..];
    assert s == "\"" + t;
  }

  lemma PieceShows(x: string, tail: string)
    requires LaterPiecesShow("\"" + (x + (['"'] + tail))) && '"' !in x
    ensures Shows(x)
  {
    var t := x + (['"'] + tail);
    var s := "\"" + t;
    Assoc(x, ['"'], tail);
    SplitFirst(x, '"', tail);
    assert s[1..] == t;
    assert Split(s, '"') == [""] + Split(t, '"');
    assert Split(s, '"')[1] == x;
  }

  lemma QuotedHereShows(next: Pattern, s: string)
    requires LaterPiecesShow(s)
    requires MatchHere(Lit("\"", Run('"', 1, Lit("\"", next))), s).Some?
    ensures !AllSpace(MatchHere(Lit("\"", Run('"', 1, Lit("\"", next))), s).value.groups[0])
  {
    hide MatchHere, LaterPiecesShow;
    var x, tail := QuotedShape(next, s);
    PieceShows(x, tail);
  }

  /** A pattern that captures nothing, then a quoted capture. */
  lemma QuotedShows(key: Pattern, next: Pattern, s: string)
    requires LaterPiecesShow(s) && Captures(key) == [] && NoLazy(key)
    ensures var p := Append(key, Lit("\"", Run('"', 1, Lit("\"", next))));
            MatchHere(p, s).Some? ==>
              MatchHere(p, s).value.groups != [] && !AllSpace(MatchHere(p, s).value.groups[0])
  {
    var quoted := Lit("\"", Run('"', 1, Lit("\"", next)));
    MatchAppend(key, quoted, s);
    hide MatchHere, LaterPiecesShow;
    if MatchHere(Append(key, quoted), s).Some? {
      var first := MatchHere(key, s).value;
      SuffixShows(s, first.rest);
      QuotedHereShows(next, first.rest);
      assert first.groups == [];
    }
  }

  lemma SearchedQuotedShows(key: Pattern, next: Pattern, s: string)
    requires LaterPiecesShow(s) && Captures(key) == [] && NoLazy(key)
    ensures var p := Append(key, Lit("\"", Run('"', 1, Lit("\"", next))));
            Search(p, s).Some? ==>
              Search(p, s).value.groups != [] && !AllSpace(Search(p, s).value.groups[0])
  {
    hide MatchHere, LaterPiecesShow, Append, Search;
    var p := Append(key, Lit("\"", Run('"', 1, Lit("\"", next))));
    SearchIsLeftmost(p, s);
    if Search(p, s).Some? {
      var i: nat :| MatchesAt(p, s, i) && Search(p, s) == MatchHere(p, s[i..]);
      SuffixShows(s, s[i..]);
      QuotedShows(key, next, s[i..]);
    }
  }

  lemma {:induction false} TrimStartShows(s: string)
    requires !AllSpace(s)
    ensures !AllSpace(TrimStart(s))
  {
    if IsWhitespace(s[0]) {
      assert forall i :: 1 <= i < |s| ==> s[i] == s[1..][i - 1];
      TrimStartShows(s[1..]);
    }
  }

  lemma {:induction false} TrimEndShows(s: string)
    requires !AllSpace(s)
    ensures TrimEnd(s) != ""
  {
    if IsWhitespace(s[|s| - 1]) {
      assert forall i :: 0 <= i < |s| - 1 ==> s[i] == s[..|s| - 1][i];
      TrimEndShows(s[..|s| - 1]);
    }
  }

  lemma TrimShows(s: string)
    requires !AllSpace(s)
    ensures Trim(s) != ""
  {
    TrimStartShows(s);
    TrimEndShows(TrimStart(s));
  }
}
