/**
 * The regular expressions of the skills DSL: literals, runs of white space, captured runs of
 * characters other than a stop character, and captured text of any kind that is as short as
 * possible, one after the other.
 */
module Patterns {
  import opened Common
  import opened Text

  datatype Pattern =
    | End
    | Lit(text: string, next: Pattern)
    | Spaces(min: nat, next: Pattern)
    | Run(stop: char, min: nat, next: Pattern)
    | Lazy(next: Pattern)

  datatype Match = Match(groups: seq<string>, rest: string)

  predicate AllSpace(s: string) {
    forall i :: 0 <= i < |s| ==> IsWhitespace(s[i])
  }

  predicate IsSuffix(t: string, s: string) {
    |t| <= |s| && t == s[|s| - |t|..]
  }

  function SpaceLength(s: string): (n: nat)
    ensures n <= |s| && AllSpace(s[..n]) && (n < |s| ==> !IsWhitespace(s[n]))
  {
    if s == "" || !IsWhitespace(s[0]) then 0 else 1 + SpaceLength(s[1..])
  }

  function RunLength(s: string, stop: char): (n: nat)
    ensures n <= |s| && stop !in s[..n] && (n < |s| ==> s[n] == stop)
  {
    if s == "" || s[0] == stop then 0 else 1 + RunLength(s[1..], stop)
  }

  /** The captures of a pattern: what stops each, if anything, and how short it may be. */
  function Captures(p: Pattern): seq<(Option<char>, nat)> {
    match p
    case End => []
    case Lit(_, next) => Captures(next)
    case Spaces(_, next) => Captures(next)
    case Run(stop, min, next) => [(Some(stop), min)] + Captures(next)
    case Lazy(next) => [(None, 0)] + Captures(next)
  }

  function Prepend(group: string, m: Option<Match>): Option<Match> {
    match m
    case None => None
    case Some(found) => Some(Match([group] + found.groups, found.rest))
  }

  /** One more character in front of the first capture. */
  function Lengthen(c: char, m: Option<Match>): Option<Match> {
    match m
    case None => None
    case Some(found) =>
      if found.groups == [] then m else Some(Match([[c] + found.groups[0]] + found.groups[1..], found.rest))
  }

  /**
   * The match at the start of `s`, taking every run as long as it goes and never backtracking
   * into it; a lazy capture grows only while nothing that follows it matches.
   */
  function MatchHere(p: Pattern, s: string): (m: Option<Match>)
    ensures m.Some? ==> IsSuffix(m.value.rest, s) && |m.value.groups| == |Captures(p)|
    decreases p, |s|
  {
    match p
    case End => Some(Match([], s))
    case Lit(text, next) => if text <= s then MatchHere(next, s[|text|..]) else None
    case Spaces(min, next) =>
      var n := SpaceLength(s);
      if n < min then None else MatchHere(next, s[n..])
    case Run(stop, min, next) =>
      var n := RunLength(s, stop);
      if n < min then None else Prepend(s[..n], MatchHere(next, s[n..]))
    case Lazy(next) =>
      if MatchHere(next, s).Some? then Prepend("", MatchHere(next, s))
      else if s == "" then None
      else Lengthen(s[0], MatchHere(p, s[1..]))
  }

  /** What a pattern means: some division of `s` fits it, with these captures and this rest. */
  ghost predicate Derives(p: Pattern, s: string, m: Match)
    decreases p
  {
    match p
    case End => m == Match([], s)
    case Lit(text, next) => text <= s && Derives(next, s[|text|..], m)
    case Spaces(min, next) =>
      exists n :: min <= n <= |s| && AllSpace(s[..n]) && Derives(next, s[n..], m)
    case Run(stop, min, next) =>
      && m.groups != []
      && exists n :: min <= n <= |s| && stop !in s[..n] && m.groups[0] == s[..n]
                     && Derives(next, s[n..], Match(m.groups[1..], m.rest))
    case Lazy(next) =>
      && m.groups != []
      && exists n :: 0 <= n <= |s| && m.groups[0] == s[..n]
                     && Derives(next, s[n..], Match(m.groups[1..], m.rest))
                     && forall k, x :: 0 <= k < n ==> !Derives(next, s[k..], x)
  }

  /** The first `n` characters are captured, whatever they are, and no fewer would do. */
  ghost predicate ShortestAt(next: Pattern, s: string, m: Match, n: nat) {
    && n <= |s| && m.groups != [] && m.groups[0] == s[..n]
    && Derives(next, s[n..], Match(m.groups[1..], m.rest))
    && forall k, x :: 0 <= k < n ==> !Derives(next, s[k..], x)
  }

  /** What follows a run cannot itself be part of the run. */
  predicate Deterministic(p: Pattern) {
    match p
    case End => true
    case Lit(_, next) => Deterministic(next)
    case Spaces(_, next) =>
      next.Lit? && next.text != "" && !IsWhitespace(next.text[0]) && Deterministic(next)
    case Run(stop, _, next) =>
      next.Lit? && next.text != "" && next.text[0] == stop && Deterministic(next)
    case Lazy(next) => Deterministic(next)
  }

  lemma SpaceLengthIs(s: string, n: nat)
    requires n <= |s| && AllSpace(s[..n]) && (n < |s| ==> !IsWhitespace(s[n]))
    ensures SpaceLength(s) == n
  {
    var k := SpaceLength(s);
    assert forall i :: 0 <= i < n ==> s[i] == s[..n][i];
    assert forall i :: 0 <= i < k ==> s[i] == s[..k][i];
  }

  lemma RunLengthIs(s: string, stop: char, n: nat)
    requires n <= |s| && stop !in s[..n] && (n < |s| ==> s[n] == stop)
    ensures RunLength(s, stop) == n
  {
    var k := RunLength(s, stop);
    assert forall i :: 0 <= i < n ==> s[i] == s[..n][i];
    assert forall i :: 0 <= i < k ==> s[i] == s[..k][i];
  }

  /** For these patterns not backtracking loses nothing: the match is the one division that fits. */
  lemma {:induction false} MatchIsExact(p: Pattern, s: string, m: Match)
    requires Deterministic(p)
    ensures Derives(p, s, m) <==> MatchHere(p, s) == Some(m)
    decreases p, |s|
  {
    hide SpaceLength, RunLength, IsSuffix, IsWhitespace;
    match p
    case Lazy(next) =>
      forall x
        ensures Derives(next, s, x) <==> MatchHere(next, s) == Some(x)
      {
        MatchIsExact(next, s, x);
      }
      assert s[0..] == s;
      if MatchHere(next, s).Some? {
        LazyNow(next, s, m);
      } else if s == "" {
        LazyNever(next, m);
      } else {
        var found := MatchHere(p, s[1..]);
        forall x
          ensures Derives(p, s[1..], x) <==> found == Some(x)
        {
          MatchIsExact(p, s[1..], x);
        }
        LazyLater(next, s, m);
      }
    case End =>
    case Lit(text, next) =>
      if text <= s {
        MatchIsExact(next, s[|text|..], m);
      }
    case Spaces(min, next) =>
      forall n | min <= n <= |s| && AllSpace(s[..n]) && Derives(next, s[n..], m)
        ensures n == SpaceLength(s) && MatchHere(next, s[n..]) == Some(m)
      {
        assert s[n..][0] == s[n];
        SpaceLengthIs(s, n);
        MatchIsExact(next, s[n..], m);
      }
      MatchIsExact(next, s[SpaceLength(s)..], m);
    case Run(stop, min, next) =>
      if m.groups != [] {
        var later := Match(m.groups[1..], m.rest);
        HeadTail(m.groups);
        forall n | min <= n <= |s| && stop !in s[..n] && Derives(next, s[n..], later)
          ensures n == RunLength(s, stop) && MatchHere(next, s[n..]) == Some(later)
        {
          assert s[n..][0] == s[n];
          RunLengthIs(s, stop, n);
          MatchIsExact(next, s[n..], later);
        }
        MatchIsExact(next, s[RunLength(s, stop)..], later);
      }
  }

  lemma LazyNow(next: Pattern, s: string, m: Match)
    requires forall x :: Derives(next, s, x) <==> MatchHere(next, s) == Some(x)
    requires MatchHere(next, s).Some?
    ensures Derives(Lazy(next), s, m) <==> Prepend("", MatchHere(next, s)) == Some(m)
  {
    hide MatchHere, Derives;
    UnfoldLazy(next, s, m);
    var found := MatchHere(next, s).value;
    assert s[0..] == s && s[..0] == "";
    forall n: nat | ShortestAt(next, s, m, n)
      ensures n == 0 && Prepend("", Some(found)) == Some(m)
    {
      assert Derives(next, s[0..], found);
      assert Derives(next, s, Match(m.groups[1..], m.rest));
      HeadTail(m.groups);
    }
    if Prepend("", Some(found)) == Some(m) {
      assert m.groups[1..] == found.groups;
      assert ShortestAt(next, s, m, 0);
    }
  }

  lemma UnfoldLazy(next: Pattern, s: string, m: Match)
    ensures Derives(Lazy(next), s, m) <==> exists n :: ShortestAt(next, s, m, n)
  {
    if n: nat :| ShortestAt(next, s, m, n) {
      assert m.groups[0] == s[..n] && Derives(next, s[n..], Match(m.groups[1..], m.rest));
    }
    if Derives(Lazy(next), s, m) {
      var n :| 0 <= n <= |s| && m.groups[0] == s[..n] && Derives(next, s[n..], Match(m.groups[1..], m.rest))
               && forall k, x :: 0 <= k < n ==> !Derives(next, s[k..], x);
      assert ShortestAt(next, s, m, n);
    }
  }

  lemma LazyNever(next: Pattern, m: Match)
    requires forall x :: !Derives(next, "", x)
    ensures !Derives(Lazy(next), "", m)
  {
    hide Derives;
    UnfoldLazy(next, "", m);
    forall n: nat
      ensures !ShortestAt(next, "", m, n)
    {
    }
  }

  /** When nothing matches here, the capture takes one character and is as short as possible behind it. */
  lemma LazyLater(next: Pattern, s: string, m: Match)
    requires s != "" && forall x :: !Derives(next, s, x)
    requires MatchHere(next, s).None?
    requires forall x :: Derives(Lazy(next), s[1..], x) <==> MatchHere(Lazy(next), s[1..]) == Some(x)
    ensures Derives(Lazy(next), s, m) <==> Lengthen(s[0], MatchHere(Lazy(next), s[1..])) == Some(m)
  {
    hide MatchHere, Derives;
    var t := s[1..];
    UnfoldLazy(next, s, m);
    if m.groups != [] && m.groups[0] != "" && m.groups[0][0] == s[0] {
      var x := Match([m.groups[0][1..]] + m.groups[1..], m.rest);
      UnfoldLazy(next, t, x);
      assert x.groups[1..] == m.groups[1..] && [s[0]] + x.groups[0] == m.groups[0];
      HeadTail(m.groups);
      forall n: nat
        ensures ShortestAt(next, s, m, n + 1) <==> ShortestAt(next, t, x, n)
      {
        LazyShift(next, s, m, x, n);
      }
      assert s[0..] == s && !ShortestAt(next, s, m, 0);
      assert forall n: nat :: ShortestAt(next, s, m, n) ==> n > 0 && ShortestAt(next, t, x, n - 1);
      assert Derives(Lazy(next), s, m) <==> Derives(Lazy(next), t, x);
    } else {
      assert s[0..] == s;
      forall n: nat
        ensures !ShortestAt(next, s, m, n)
      {
      }
    }
    LazyHasGroup(next, t);
    if MatchHere(Lazy(next), t).Some? {
      LengthenIs(s[0], MatchHere(Lazy(next), t).value, m);
    }
  }

  lemma LengthenIs(c: char, found: Match, m: Match)
    requires found.groups != []
    ensures Lengthen(c, Some(found)) == Some(m) <==>
            && m.groups != [] && m.groups[0] != "" && m.groups[0][0] == c
            && found == Match([m.groups[0][1..]] + m.groups[1..], m.rest)
  {
    HeadTail(found.groups);
    if Lengthen(c, Some(found)) == Some(m) {
      assert m.groups[0][1..] == found.groups[0] && m.groups[1..] == found.groups[1..];
    }
    if m.groups != [] && m.groups[0] != "" && m.groups[0][0] == c {
      HeadTail(m.groups);
      HeadTail(m.groups[0]);
    }
  }

  lemma LazyHasGroup(next: Pattern, s: string)
    ensures MatchHere(Lazy(next), s).Some? ==> MatchHere(Lazy(next), s).value.groups != []
  {
    hide MatchHere;
    assert Captures(Lazy(next)) != [];
  }

  lemma LazyShift(next: Pattern, s: string, m: Match, x: Match, n: nat)
    requires s != "" && m.groups != [] && x.groups != []
    requires m.groups[0] == [s[0]] + x.groups[0] && m.groups[1..] == x.groups[1..] && m.rest == x.rest
    requires forall y :: !Derives(next, s, y)
    ensures ShortestAt(next, s, m, n + 1) <==> ShortestAt(next, s[1..], x, n)
  {
    hide Derives;
    var t := s[1..];
    if n <= |t| {
      DropDrop(s, 1, n);
      assert s[..n + 1] == [s[0]] + t[..n];
      assert m.groups[0][1..] == x.groups[0] && s[..n + 1][1..] == t[..n];
      assert forall k :: 0 <= k < n ==> s[k + 1..] == t[k..];
      assert s[0..] == s;
      if ShortestAt(next, t, x, n) {
        forall k, y | 0 <= k < n + 1
          ensures !Derives(next, s[k..], y)
        {
          if k > 0 {
            DropDrop(s, 1, k - 1);
            assert !Derives(next, t[k - 1..], y);
          }
        }
      }
      if ShortestAt(next, s, m, n + 1) {
        forall k, y | 0 <= k < n
          ensures !Derives(next, t[k..], y)
        {
          DropDrop(s, 1, k);
          assert !Derives(next, s[k + 1..], y);
        }
      }
    }
  }

  /** Up to a stop character, the shortest text is the run of other characters. */
  lemma {:induction false} LazyIsRun(c: char, s: string)
    ensures MatchHere(Lazy(Lit([c], End)), s) == MatchHere(Run(c, 0, Lit([c], End)), s)
    decreases |s|
  {
    hide MatchHere;
    var end := Lit([c], End);
    MatchOne(c, s);
    LazyStep(end, s);
    RunStep(c, s);
    if s != "" && s[0] != c {
      LazyIsRun(c, s[1..]);
    }
  }

  lemma MatchOne(c: char, s: string)
    ensures MatchHere(Lit([c], End), s) == if s != "" && s[0] == c then Some(Match([], s[1..])) else None
  {
    assert [c] <= s <==> s != "" && s[0] == c;
    assert MatchHere(End, if s == "" then "" else s[1..]).Some?;
  }

  lemma LazyStep(next: Pattern, s: string)
    ensures MatchHere(Lazy(next), s) ==
            if MatchHere(next, s).Some? then Prepend("", MatchHere(next, s))
            else if s == "" then None
            else Lengthen(s[0], MatchHere(Lazy(next), s[1..]))
  {
  }

  lemma RunStep(c: char, s: string)
    ensures var p := Run(c, 0, Lit([c], End));
            MatchHere(p, s) ==
            if MatchHere(Lit([c], End), s).Some? then Prepend("", MatchHere(Lit([c], End), s))
            else if s == "" then None
            else Lengthen(s[0], MatchHere(p, s[1..]))
  {
    MatchOne(c, s);
    var n := RunLength(s, c);
    assert s[0..] == s && s[..0] == "";
    RunUnfolds(c, s);
    if s != "" && s[0] != c {
      var k := RunLength(s[1..], c);
      RunUnfolds(c, s[1..]);
      assert n == k + 1 && s[..n] == [s[0]] + s[1..][..k];
      DropDrop(s, 1, k);
    }
  }

  lemma RunUnfolds(c: char, s: string)
    ensures var n := RunLength(s, c);
            MatchHere(Run(c, 0, Lit([c], End)), s) == Prepend(s[..n], MatchHere(Lit([c], End), s[n..]))
  {
  }

  predicate GroupsFit(groups: seq<string>, captures: seq<(Option<char>, nat)>, s: string) {
    && |groups| == |captures|
    && forall i :: 0 <= i < |groups| ==>
         && (captures[i].0.Some? ==> captures[i].0.value !in groups[i])
         && |groups[i]| >= captures[i].1
         && forall c :: c in groups[i] ==> c in s
  }

  predicate OnlyCharsOf(t: string, s: string) {
    forall c :: c in t ==> c in s
  }

  lemma {:induction false} MatchedGroupsFit(p: Pattern, s: string)
    ensures MatchHere(p, s).Some? ==> GroupsFit(MatchHere(p, s).value.groups, Captures(p), s)
    decreases p, |s|
  {
    hide SpaceLength, RunLength, IsSuffix, GroupsFit;
    match p
    case End => assert GroupsFit([], [], s) by { NoGroupsFit(s); }
    case Lit(text, next) =>
      if text <= s {
        MatchedGroupsFit(next, s[|text|..]);
        GroupsFitMore(next, s[|text|..], s);
      }
    case Spaces(min, next) =>
      var n := SpaceLength(s);
      MatchedGroupsFit(next, s[n..]);
      GroupsFitMore(next, s[n..], s);
    case Run(stop, min, next) =>
      var n := RunLength(s, stop);
      MatchedGroupsFit(next, s[n..]);
      GroupsFitMore(next, s[n..], s);
      if MatchHere(p, s).Some? {
        PrependFits(s[..n], MatchHere(next, s[n..]).value.groups, (Some(stop), min), Captures(next), s);
      }
    case Lazy(next) =>
      MatchedGroupsFit(next, s);
      if MatchHere(next, s).Some? {
        PrependFits("", MatchHere(next, s).value.groups, (None, 0), Captures(next), s);
      } else if s != "" {
        MatchedGroupsFit(p, s[1..]);
        GroupsFitMore(p, s[1..], s);
        if MatchHere(p, s[1..]).Some? {
          LengthenFits(s[0], MatchHere(p, s[1..]).value.groups, Captures(p), s);
        }
      }
  }

  lemma NoGroupsFit(s: string)
    ensures GroupsFit([], [], s)
  {
  }

  lemma GroupsFitMore(p: Pattern, t: string, s: string)
    requires OnlyCharsOf(t, s)
    ensures MatchHere(p, t).Some? && GroupsFit(MatchHere(p, t).value.groups, Captures(p), t) ==>
              GroupsFit(MatchHere(p, t).value.groups, Captures(p), s)
  {
    hide MatchHere, Captures;
  }

  lemma PrependFits(group: string, groups: seq<string>, capture: (Option<char>, nat),
                    captures: seq<(Option<char>, nat)>, s: string)
    requires GroupsFit(groups, captures, s)
    requires OnlyCharsOf(group, s) && |group| >= capture.1 && (capture.0.Some? ==> capture.0.value !in group)
    ensures GroupsFit([group] + groups, [capture] + captures, s)
  {
  }

  lemma LengthenFits(c: char, groups: seq<string>, captures: seq<(Option<char>, nat)>, s: string)
    requires GroupsFit(groups, captures, s) && groups != [] && captures[0] == (None, 0) && c in s
    ensures GroupsFit([[c] + groups[0]] + groups[1..], captures, s)
  {
    assert OnlyCharsOf([c] + groups[0], s);
    assert OnlyCharsOf(groups[0], s);
  }

  lemma {:induction false} FoundGroupsFit(p: Pattern, s: string)
    ensures Search(p, s).Some? ==> GroupsFit(Search(p, s).value.groups, Captures(p), s)
    decreases |s|
  {
    hide MatchHere, IsSuffix;
    MatchedGroupsFit(p, s);
    if MatchHere(p, s).None? && s != "" {
      FoundGroupsFit(p, s[1..]);
    }
  }

  // ----- matching known text

  lemma MatchLit(text: string, next: Pattern, s: string)
    ensures MatchHere(Lit(text, next), text + s) == MatchHere(next, s)
  {
    assert (text + s)[|text|..] == s;
  }

  lemma MatchSpaces(min: nat, next: Pattern, w: string, s: string)
    requires |w| >= min && AllSpace(w) && s != "" && !IsWhitespace(s[0])
    ensures MatchHere(Spaces(min, next), w + s) == MatchHere(next, s)
  {
    assert (w + s)[..|w|] == w && (w + s)[|w|..] == s;
    SpaceLengthIs(w + s, |w|);
  }

  lemma MatchRun(stop: char, min: nat, next: Pattern, t: string, s: string)
    requires |t| >= min && stop !in t && s != "" && s[0] == stop
    ensures MatchHere(Run(stop, min, next), t + s) == Prepend(t, MatchHere(next, s))
  {
    assert (t + s)[..|t|] == t && (t + s)[|t|..] == s;
    RunLengthIs(t + s, stop, |t|);
  }

  function Append(p: Pattern, q: Pattern): Pattern {
    match p
    case End => q
    case Lit(text, next) => Lit(text, Append(next, q))
    case Spaces(min, next) => Spaces(min, Append(next, q))
    case Run(stop, min, next) => Run(stop, min, Append(next, q))
    case Lazy(next) => Lazy(Append(next, q))
  }

  function Then(m: Option<Match>, q: Pattern): Option<Match> {
    match m
    case None => None
    case Some(first) =>
      match MatchHere(q, first.rest)
      case None => None
      case Some(second) => Some(Match(first.groups + second.groups, second.rest))
  }

  predicate NoLazy(p: Pattern) {
    match p
    case End => true
    case Lit(_, next) => NoLazy(next)
    case Spaces(_, next) => NoLazy(next)
    case Run(_, _, next) => NoLazy(next)
    case Lazy(_) => false
  }

  lemma {:induction false} MatchAppend(p: Pattern, q: Pattern, s: string)
    requires NoLazy(p)
    ensures MatchHere(Append(p, q), s) == Then(MatchHere(p, s), q)
    decreases p
  {
    hide SpaceLength, RunLength, IsSuffix;
    match p
    case End =>
      if MatchHere(q, s).Some? {
        assert [] + MatchHere(q, s).value.groups == MatchHere(q, s).value.groups;
      }
    case Lit(text, next) =>
      if text <= s {
        MatchAppend(next, q, s[|text|..]);
      }
    case Spaces(min, next) =>
      MatchAppend(next, q, s[SpaceLength(s)..]);
    case Run(stop, min, next) =>
      var n := RunLength(s, stop);
      MatchAppend(next, q, s[n..]);
      if MatchHere(next, s[n..]).Some? && MatchHere(q, MatchHere(next, s[n..]).value.rest).Some? {
        Assoc([s[..n]], MatchHere(next, s[n..]).value.groups,
              MatchHere(q, MatchHere(next, s[n..]).value.rest).value.groups);
      }
  }

  // ----- searching

  predicate Consumes(p: Pattern) {
    p.Lit? && p.text != ""
  }

  /** The leftmost match anywhere in `s`. */
  function Search(p: Pattern, s: string): (m: Option<Match>)
    ensures m.Some? ==> |m.value.rest| <= |s| && |m.value.groups| == |Captures(p)|
    ensures m.Some? && Consumes(p) ==> |m.value.rest| < |s|
    decreases |s|
  {
    if MatchHere(p, s).Some? then MatchHere(p, s)
    else if s == "" then None
    else Search(p, s[1..])
  }

  predicate MatchesAt(p: Pattern, s: string, i: nat) {
    i <= |s| && MatchHere(p, s[i..]).Some?
  }

  /** The search returns the match at the first position that has one. */
  lemma {:induction false} SearchIsLeftmost(p: Pattern, s: string)
    ensures Search(p, s).None? ==> forall i: nat :: !MatchesAt(p, s, i)
    ensures Search(p, s).Some? ==>
              exists i: nat :: MatchesAt(p, s, i) && Search(p, s) == MatchHere(p, s[i..])
                               && forall j: nat :: j < i ==> !MatchesAt(p, s, j)
    decreases |s|
  {
    hide MatchHere, IsSuffix;
    assert s[0..] == s;
    if MatchHere(p, s).None? && s != "" {
      var t := s[1..];
      SearchIsLeftmost(p, t);
      forall j: nat
        ensures MatchesAt(p, s, j) <==> j > 0 && MatchesAt(p, t, j - 1)
      {
        if 0 < j <= |s| {
          assert s[j..] == t[j - 1..];
        }
      }
      if Search(p, s).Some? {
        var i: nat :| MatchesAt(p, t, i) && Search(p, t) == MatchHere(p, t[i..])
                      && forall j: nat :: j < i ==> !MatchesAt(p, t, j);
        assert s[i + 1..] == t[i..];
        assert MatchesAt(p, s, i + 1);
      }
    } else if MatchHere(p, s).Some? {
      assert MatchesAt(p, s, 0);
    }
  }

  lemma SearchEndsInside(p: Pattern, s: string)
    ensures Search(p, s).Some? ==> IsSuffix(Search(p, s).value.rest, s)
  {
    hide MatchHere, Search;
    SearchIsLeftmost(p, s);
    if Search(p, s).Some? {
      var i: nat :| MatchesAt(p, s, i) && Search(p, s) == MatchHere(p, s[i..]);
      var rest := Search(p, s).value.rest;
      DropDrop(s, i, |s| - i - |rest|);
    }
  }

  lemma {:induction false} SkipText(p: Pattern, u: string, s: string)
    requires Consumes(p) && p.text[0] !in u
    ensures Search(p, u + s) == Search(p, s)
    decreases |u|
  {
    hide IsSuffix;
    if u == "" {
      assert u + s == s;
    } else {
      assert (u + s)[1..] == u[1..] + s;
      assert (u + s)[0] == u[0];
      SkipText(p, u[1..], s);
    }
  }

  // ----- text that a pattern cannot cross

  /** A pattern that captures nothing and has no `c` in it. */
  predicate Avoids(p: Pattern, c: char) {
    match p
    case End => true
    case Lit(text, next) => c !in text && Avoids(next, c)
    case Spaces(_, next) => Avoids(next, c)
    case Run(_, _, _) => false
    case Lazy(_) => false
  }

  function FollowedBy(m: Option<Match>, tail: string): Option<Match> {
    match m
    case None => None
    case Some(found) => Some(Match(found.groups, found.rest + tail))
  }

  lemma {:induction false} MatchBefore(p: Pattern, u: string, c: char, s: string)
    requires Avoids(p, c) && !IsWhitespace(c)
    ensures MatchHere(p, u + ([c] + s)) == FollowedBy(MatchHere(p, u), [c] + s)
    decreases p
  {
    hide SpaceLength, IsSuffix;
    var all := u + ([c] + s);
    match p
    case End =>
    case Lit(text, next) =>
      assert all[|u|] == c;
      if text <= u {
        assert all[|text|..] == u[|text|..] + ([c] + s);
        MatchBefore(next, u[|text|..], c, s);
      }
    case Spaces(min, next) =>
      var n := SpaceLength(u);
      assert all[..n] == u[..n] && all[n..] == u[n..] + ([c] + s);
      SpaceLengthIs(all, n);
      MatchBefore(next, u[n..], c, s);
  }

  /** The leftmost match is before the first `c` if there is one there, and else after it. */
  lemma {:induction false} SearchBefore(p: Pattern, u: string, c: char, s: string)
    requires Avoids(p, c) && !IsWhitespace(c) && Consumes(p)
    ensures Search(p, u + ([c] + s)) ==
            if Search(p, u).Some? then FollowedBy(Search(p, u), [c] + s) else Search(p, s)
    decreases |u|
  {
    hide MatchHere, IsSuffix;
    var all := u + ([c] + s);
    MatchBefore(p, u, c, s);
    if u == "" {
      assert all[1..] == s;
      NothingInNothing(p);
    } else if MatchHere(p, u).None? {
      assert all[1..] == u[1..] + ([c] + s);
      SearchBefore(p, u[1..], c, s);
    }
  }

  lemma NothingInNothing(p: Pattern)
    requires Consumes(p)
    ensures MatchHere(p, "").None? && Search(p, "").None?
  {
  }
}
