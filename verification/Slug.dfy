/**
 `slugify` (`gateway/src/main.rs`): any text becomes hyphen-joined runs of [a-z0-9].
 Lower-casing and white space are parameters of which only this is assumed: a text of letters,
 digits and hyphens is its own lower case, and none of these characters is white space.
 */
module Slug {

  datatype Unicode = Unicode(lower: string -> string, space: char -> bool)

  predicate IsAlnum(c: char) {
    'a' <= c <= 'z' || '0' <= c <= '9'
  }

  predicate IsPlain(s: string) {
    forall i :: 0 <= i < |s| ==> IsAlnum(s[i]) || s[i] == '-'
  }

  ghost predicate Sane(u: Unicode) {
    && (forall s :: IsPlain(s) ==> u.lower(s) == s)
    && (forall c :: IsAlnum(c) || c == '-' ==> !u.space(c))
  }

  // ---------------------------------------------------------------------------
  // The stages
  // ---------------------------------------------------------------------------

  function TrimLeft(u: Unicode, s: string): string {
    if s != [] && u.space(s[0]) then TrimLeft(u, s[1..]) else s
  }

  function TrimRight(u: Unicode, s: string): string {
    if s != [] && u.space(s[|s| - 1]) then TrimRight(u, s[..|s| - 1]) else s
  }

  function Trim(u: Unicode, s: string): string {
    TrimRight(u, TrimLeft(u, s))
  }

  function Dashed(s: string): string {
    seq(|s|, i requires 0 <= i < |s| => if IsAlnum(s[i]) then s[i] else '-')
  }

  /** The pieces between hyphens, empty ones included. */
  function Split(s: string): (pieces: seq<string>)
    ensures |pieces| > 0
  {
    if s == [] then [""]
    else
      var rest := Split(s[1..]);
      if s[0] == '-' then [""] + rest else [[s[0]] + rest[0]] + rest[1..]
  }

  function NonEmpty(pieces: seq<string>): seq<string> {
    if pieces == [] then [] else (if pieces[0] != [] then [pieces[0]] else []) + NonEmpty(pieces[1..])
  }

  function Join(pieces: seq<string>): string {
    if pieces == [] then []
    else if |pieces| == 1 then pieces[0]
    else pieces[0] + "-" + Join(pieces[1..])
  }

  function Slugify(u: Unicode, s: string): string {
    Join(NonEmpty(Split(Dashed(u.lower(Trim(u, s))))))
  }

  // ---------------------------------------------------------------------------
  // What a slug is
  // ---------------------------------------------------------------------------

  /** Letters, digits and single inner hyphens only; the empty text included. */
  predicate IsSlug(s: string) {
    && IsPlain(s)
    && (s != [] ==> s[0] != '-' && s[|s| - 1] != '-')
    && (forall i :: 0 <= i < |s| - 1 ==> s[i] != '-' || s[i + 1] != '-')
  }

  predicate IsSegment(p: string) {
    p != [] && forall i :: 0 <= i < |p| ==> IsAlnum(p[i])
  }

  ghost predicate AllSegments(pieces: seq<string>) {
    forall p :: p in pieces ==> IsSegment(p)
  }

  /** The characters kept are the lower-case letters and digits of ASCII, by their code points. */
  lemma AlphabetOfSlugs(c: char)
    ensures IsAlnum(c) <==> 97 <= c as int <= 122 || 48 <= c as int <= 57
  {
  }

  /** Trimming takes off all white space at both ends and nothing else. */
  lemma TrimMeans(u: Unicode, s: string) returns (i: nat, j: nat)
    ensures i <= j <= |s| && Trim(u, s) == s[i..j]
    ensures forall k :: 0 <= k < i || j <= k < |s| ==> u.space(s[k])
    ensures i < j ==> !u.space(s[i]) && !u.space(s[j - 1])
  {
    i := TrimLeftMeans(u, s);
    j := TrimRightMeans(u, s[i..]);
    assert s[i..][..j] == s[i..i + j];
    forall k | i + j <= k < |s| ensures u.space(s[k]) {
      assert s[k] == s[i..][k - i];
    }
    j := i + j;
  }

  lemma {:induction false} TrimLeftMeans(u: Unicode, s: string) returns (i: nat)
    ensures i <= |s| && TrimLeft(u, s) == s[i..]
    ensures forall k :: 0 <= k < i ==> u.space(s[k])
    ensures i < |s| ==> !u.space(s[i])
  {
    i := 0;
    if s != [] && u.space(s[0]) {
      var n := TrimLeftMeans(u, s[1..]);
      i := n + 1;
      forall k | 0 <= k < i ensures u.space(s[k]) {
        assert k > 0 ==> s[k] == s[1..][k - 1];
      }
    }
  }

  lemma {:induction false} TrimRightMeans(u: Unicode, s: string) returns (j: nat)
    ensures j <= |s| && TrimRight(u, s) == s[..j]
    ensures forall k :: j <= k < |s| ==> u.space(s[k])
    ensures j > 0 ==> !u.space(s[j - 1])
  {
    j := |s|;
    if s != [] && u.space(s[|s| - 1]) {
      j := TrimRightMeans(u, s[..|s| - 1]);
      forall k | j <= k < |s| ensures u.space(s[k]) {
        assert k < |s| - 1 ==> s[k] == s[..|s| - 1][k];
      }
    }
  }

  lemma {:induction false} JoinedSegmentsAreSlug(pieces: seq<string>)
    requires AllSegments(pieces)
    ensures IsSlug(Join(pieces))
    ensures pieces != [] ==> Join(pieces) != [] && Join(pieces)[0] == pieces[0][0]
  {
    if pieces != [] {
      assert pieces[0] in pieces;
      assert IsSegment(pieces[0]);
    }
    if |pieces| > 1 {
      JoinedSegmentsAreSlug(pieces[1..]);
      var p, rest := pieces[0], Join(pieces[1..]);
      var s := p + "-" + rest;
      assert Join(pieces) == s;
      forall i | 0 <= i < |s| ensures IsAlnum(s[i]) || s[i] == '-' {
        if i > |p| {
          assert s[i] == rest[i - |p| - 1];
        }
      }
      assert s[|s| - 1] == rest[|rest| - 1];
      forall i | 0 <= i < |s| - 1 ensures s[i] != '-' || s[i + 1] != '-' {
        if i > |p| {
          assert s[i] == rest[i - |p| - 1] && s[i + 1] == rest[i - |p|];
        } else if i == |p| {
          assert s[i + 1] == rest[0];
        }
      }
    }
  }

  /** Splitting text of letters, digits and hyphens leaves pieces without hyphens. */
  lemma {:induction false} PiecesArePlain(s: string)
    requires IsPlain(s)
    ensures forall p, i :: p in Split(s) && 0 <= i < |p| ==> IsAlnum(p[i])
  {
    if s != [] {
      PiecesArePlain(s[1..]);
      var rest := Split(s[1..]);
      forall p, i | p in Split(s) && 0 <= i < |p| ensures IsAlnum(p[i]) {
        if p !in rest {
          assert s[0] != '-' && p == [s[0]] + rest[0];
          if i > 0 {
            assert rest[0] in rest && p[i] == rest[0][i - 1];
          }
        }
      }
    }
  }

  lemma {:induction false} NonEmptyFilters(pieces: seq<string>)
    ensures forall p :: p in NonEmpty(pieces) <==> p in pieces && p != []
    ensures (forall p :: p in pieces ==> p != []) ==> NonEmpty(pieces) == pieces
  {
    if pieces != [] {
      NonEmptyFilters(pieces[1..]);
      if forall p :: p in pieces ==> p != [] {
        assert pieces[0] in pieces;
        assert forall p :: p in pieces[1..] ==> p in pieces;
        assert pieces == [pieces[0]] + pieces[1..];
      }
    }
  }

  /** Joining undoes splitting. */
  lemma {:induction false} JoinSplit(s: string)
    ensures Join(Split(s)) == s
  {
    if s != [] {
      JoinSplit(s[1..]);
      var rest := Split(s[1..]);
      if s[0] == '-' {
        assert Split(s)[1..] == rest;
      } else {
        assert Split(s)[1..] == rest[1..];
      }
    }
  }

  /** Without trailing or double hyphens only the first piece can be empty, and only after a leading hyphen. */
  lemma {:induction false} InnerPiecesNonEmpty(s: string)
    requires s != [] && s[|s| - 1] != '-'
    requires forall i :: 0 <= i < |s| - 1 ==> s[i] != '-' || s[i + 1] != '-'
    ensures Split(s)[0] == [] <==> s[0] == '-'
    ensures forall i :: 1 <= i < |Split(s)| ==> Split(s)[i] != []
  {
    if |s| > 1 {
      InnerPiecesNonEmpty(s[1..]);
      var rest := Split(s[1..]);
      forall i | 1 <= i < |Split(s)| ensures Split(s)[i] != [] {
        if s[0] == '-' {
          assert Split(s)[i] == rest[i - 1];
        } else {
          assert Split(s)[i] == rest[i];
        }
      }
    } else {
      assert Split(s[1..]) == [""];
    }
  }

  // ---------------------------------------------------------------------------
  // Results
  // ---------------------------------------------------------------------------

  /** Whatever the input, and with no assumption about Unicode, the output is a slug. */
  lemma OutputIsSlug(u: Unicode, s: string)
    ensures IsSlug(Slugify(u, s))
  {
    var d := Dashed(u.lower(Trim(u, s)));
    PiecesArePlain(d);
    NonEmptyFilters(Split(d));
    JoinedSegmentsAreSlug(NonEmpty(Split(d)));
  }

  lemma PiecesOfSlug(s: string)
    requires IsSlug(s) && s != []
    ensures NonEmpty(Split(s)) == Split(s)
  {
    InnerPiecesNonEmpty(s);
    hide NonEmpty, Split;
    forall p | p in Split(s) ensures p != [] {
      var i :| 0 <= i < |Split(s)| && Split(s)[i] == p;
    }
    NonEmptyFilters(Split(s));
  }

  lemma CleaningKeepsSlug(u: Unicode, s: string)
    requires Sane(u) && IsSlug(s)
    ensures Dashed(u.lower(Trim(u, s))) == s
  {
    assert Trim(u, s) == s;
    assert IsPlain(s);
  }

  /** Slugs are left alone. */
  lemma SlugIsFixed(u: Unicode, s: string)
    requires Sane(u) && IsSlug(s)
    ensures Slugify(u, s) == s
  {
    CleaningKeepsSlug(u, s);
    if s == [] {
      assert NonEmpty(Split([])) == NonEmpty([""]) == [];
    } else {
      hide NonEmpty, Split, Join, Dashed, Trim;
      PiecesOfSlug(s);
      JoinSplit(s);
    }
  }

  /** The outputs of `slugify` are exactly the slugs. */
  lemma OutputsAreExactlySlugs(u: Unicode, t: string)
    requires Sane(u)
    ensures IsSlug(t) <==> exists s :: Slugify(u, s) == t
  {
    if IsSlug(t) {
      SlugIsFixed(u, t);
    }
    if s :| Slugify(u, s) == t {
      OutputIsSlug(u, s);
    }
  }

  lemma SlugifyIsIdempotent(u: Unicode, s: string)
    requires Sane(u)
    ensures Slugify(u, Slugify(u, s)) == Slugify(u, s)
  {
    OutputIsSlug(u, s);
    SlugIsFixed(u, Slugify(u, s));
  }

  /** Slugs are exactly the hyphen-joined sequences of nonempty runs of letters and digits. */
  lemma SlugsAreJoinedSegments(s: string)
    ensures IsSlug(s) <==> exists pieces :: AllSegments(pieces) && Join(pieces) == s
  {
    if IsSlug(s) {
      if s == [] {
        assert AllSegments([]) && Join([]) == s;
      } else {
        InnerPiecesNonEmpty(s);
        PiecesArePlain(s);
        forall p | p in Split(s) ensures IsSegment(p) {
          var i :| 0 <= i < |Split(s)| && Split(s)[i] == p;
        }
        JoinSplit(s);
        assert AllSegments(Split(s));
      }
    }
    if pieces :| AllSegments(pieces) && Join(pieces) == s {
      JoinedSegmentsAreSlug(pieces);
    }
  }

  // ---------------------------------------------------------------------------
  // One pass
  // ---------------------------------------------------------------------------

  /**
   The same in one pass and without pieces: keeps the letters and digits, and puts one hyphen
   between two of them that other characters separated.  `begun` says that one has been kept, and
   `gap` that a hyphen is owed before the next.
   */
  function OnePass(s: string, begun: bool, gap: bool): string {
    if s == [] then []
    else if IsAlnum(s[0]) then (if gap then "-" else "") + [s[0]] + OnePass(s[1..], true, false)
    else OnePass(s[1..], begun, begun)
  }

  function HyphenThen(pieces: seq<string>): string {
    if NonEmpty(pieces) == [] then [] else "-" + Join(NonEmpty(pieces))
  }

  lemma NonEmptyFirst(p: string, rest: seq<string>)
    requires p != []
    ensures NonEmpty([p] + rest) == [p] + NonEmpty(rest)
  {
    assert ([p] + rest)[1..] == rest;
  }

  lemma JoinFirst(p: string, rest: seq<string>)
    requires p != []
    ensures Join(NonEmpty([p] + rest)) == p + HyphenThen(rest)
    ensures HyphenThen([p] + rest) == "-" + (p + HyphenThen(rest))
  {
    NonEmptyFirst(p, rest);
    hide NonEmpty;
    assert ([p] + NonEmpty(rest))[1..] == NonEmpty(rest);
    assert Join([p] + NonEmpty(rest)) == p + HyphenThen(rest);
  }

  lemma SkipEmpty(rest: seq<string>)
    ensures NonEmpty([""] + rest) == NonEmpty(rest)
    ensures HyphenThen([""] + rest) == HyphenThen(rest)
  {
    assert ([""] + rest)[1..] == rest;
  }

  lemma SplitDashed(s: string)
    requires s != []
    ensures var rest := Split(Dashed(s[1..]));
      Split(Dashed(s)) == if IsAlnum(s[0]) then [[s[0]] + rest[0]] + rest[1..] else [""] + rest
  {
    assert Dashed(s)[1..] == Dashed(s[1..]);
  }

  lemma OnePassStep(s: string)
    requires s != []
    ensures IsAlnum(s[0]) ==>
      && OnePass(s, false, false) == OnePass(s, true, false) == [s[0]] + OnePass(s[1..], true, false)
      && OnePass(s, true, true) == "-" + ([s[0]] + OnePass(s[1..], true, false))
    ensures !IsAlnum(s[0]) ==>
      && OnePass(s, false, false) == OnePass(s[1..], false, false)
      && OnePass(s, true, true) == OnePass(s, true, false) == OnePass(s[1..], true, true)
  {
  }

  /** What a letter in front does to the pieces, given what the pass makes of the text after it. */
  lemma LetterInFront(c: char, tail: string, rest: seq<string>)
    requires rest != [] && tail == rest[0] + HyphenThen(rest[1..])
    ensures var pieces := [[c] + rest[0]] + rest[1..];
      && [c] + tail == Join(NonEmpty(pieces))
      && "-" + ([c] + tail) == HyphenThen(pieces)
      && [c] + tail == pieces[0] + HyphenThen(pieces[1..])
  {
    var first, others := [c] + rest[0], rest[1..];
    JoinFirst(first, others);
    hide NonEmpty, Join, HyphenThen;
    assert ([first] + others)[1..] == others;
    assert [c] + (rest[0] + HyphenThen(others)) == first + HyphenThen(others);
  }

  /** Joining the nonempty pieces is the one pass, from each of its states. */
  lemma {:induction false} OnePassJoins(s: string)
    ensures OnePass(s, false, false) == Join(NonEmpty(Split(Dashed(s))))
    ensures OnePass(s, true, true) == HyphenThen(Split(Dashed(s)))
    ensures OnePass(s, true, false) == Split(Dashed(s))[0] + HyphenThen(Split(Dashed(s))[1..])
  {
    if s != [] {
      OnePassStep(s);
      hide Split, Dashed, NonEmpty, Join, HyphenThen, OnePass;
      OnePassJoins(s[1..]);
      SplitDashed(s);
      var rest := Split(Dashed(s[1..]));
      if IsAlnum(s[0]) {
        LetterInFront(s[0], OnePass(s[1..], true, false), rest);
      } else {
        SkipEmpty(rest);
        assert ([""] + rest)[1..] == rest;
      }
    }
  }

  /** `slugify` keeps every letter and digit of the cleaned text, in order, with hyphens exactly in the gaps. */
  lemma SlugifyIsOnePass(u: Unicode, s: string)
    ensures Slugify(u, s) == OnePass(u.lower(Trim(u, s)), false, false)
  {
    OnePassJoins(u.lower(Trim(u, s)));
  }
}
