/**
 xfontsel's matcher of a pattern against a font name, compared with the plain meaning of stars and question marks.  For
 names without stars the matcher decides the glob relation for every pattern that does not end in two stars, and for
 those that do it decides it for the name without its last character, as long as it does not step over the end of the
 name; that it does only on names that do not match.
 */
module GlobMatch {
  const STAR: char := '*'
  const QUESTION: char := '?'

  /** A character of a pattern other than a star stands for itself, a question mark for any character. */
  predicate Fits(p: char, c: char) {
    p == QUESTION || p == c
  }

  /** The pattern matches the name: a star stands for any text. */
  ghost predicate Glob(pattern: string, name: string)
    decreases |pattern|
  {
    if pattern == "" then name == ""
    else if pattern[0] == STAR then exists k :: 0 <= k <= |name| && Glob(pattern[1..], name[k..])
    else name != "" && Fits(pattern[0], name[0]) && Glob(pattern[1..], name[1..])
  }

  /** Without stars a pattern is compared character by character. */
  lemma {:induction false} GlobWithoutStars(pattern: string, name: string)
    requires '*' !in pattern
    ensures Glob(pattern, name) <==>
      |pattern| == |name| && forall i :: 0 <= i < |pattern| ==> pattern[i] == '?' || pattern[i] == name[i]
    decreases |pattern|
  {
    if pattern != "" && name != "" {
      var p, n := pattern[1..], name[1..];
      GlobWithoutStars(p, n);
      assert forall i :: 0 <= i < |p| ==> p[i] == pattern[i + 1];
      assert forall i :: 0 <= i < |n| ==> n[i] == name[i + 1];
      if |pattern| == |name| && forall i :: 0 <= i < |p| ==> p[i] == '?' || p[i] == n[i] {
        assert forall i :: 0 < i < |pattern| ==> pattern[i] == p[i - 1] && name[i] == n[i - 1];
      }
    }
  }

  /** The name falls into a text for the pattern before a star, any text, and one for the pattern behind it. */
  ghost predicate Around(before: string, behind: string, name: string, i: nat, j: nat) {
    i <= j <= |name| && Glob(before, name[..i]) && Glob(behind, name[j..])
  }

  /** A star stands for any text, wherever it is in the pattern. */
  lemma {:induction false} GlobStar(before: string, behind: string, name: string)
    ensures Glob(before + ['*'] + behind, name) <==> exists i: nat, j: nat :: Around(before, behind, name, i, j)
    decreases |before|
  {
    var pattern := before + ['*'] + behind;
    if before == "" {
      assert pattern[1..] == behind;
      assert name[..0] == "";
      if Glob(pattern, name) {
        var k: nat :| k <= |name| && Glob(behind, name[k..]);
        assert Around(before, behind, name, 0, k);
      }
    } else {
      assert pattern[1..] == before[1..] + ['*'] + behind;
      if before[0] == STAR {
        LeadingStar(before, behind, name);
      } else if name != "" {
        GlobStar(before[1..], behind, name[1..]);
        LeadingCharacter(before, behind, name);
      } else {
        forall i: nat, j: nat ensures !Around(before, behind, name, i, j) {
          assert i <= |name| ==> name[..i] == "";
        }
      }
    }
  }

  lemma {:induction false} LeadingStar(before: string, behind: string, name: string)
    requires before != "" && before[0] == STAR
    ensures Glob(before + ['*'] + behind, name) <==> exists i: nat, j: nat :: Around(before, behind, name, i, j)
    decreases |before|, 0
  {
    var pattern := before + ['*'] + behind;
    assert pattern[1..] == before[1..] + ['*'] + behind;
    if Glob(pattern, name) {
      var k: nat :| k <= |name| && Glob(pattern[1..], name[k..]);
      GlobStar(before[1..], behind, name[k..]);
      var i: nat, j: nat :| Around(before[1..], behind, name[k..], i, j);
      assert name[k..][..i] == name[..k + i][k..] && name[k..][j..] == name[k + j..];
      assert Around(before, behind, name, k + i, k + j);
    }
    if i: nat, j: nat :| Around(before, behind, name, i, j) {
      var k: nat :| k <= i && Glob(before[1..], name[..i][k..]);
      assert name[k..][..i - k] == name[..i][k..] && name[k..][j - k..] == name[j..];
      assert Around(before[1..], behind, name[k..], i - k, j - k);
      GlobStar(before[1..], behind, name[k..]);
    }
  }

  lemma LeadingCharacter(before: string, behind: string, name: string)
    requires before != "" && before[0] != STAR && name != ""
    ensures (exists i: nat, j: nat :: Around(before, behind, name, i, j)) <==>
      Fits(before[0], name[0]) && exists i: nat, j: nat :: Around(before[1..], behind, name[1..], i, j)
  {
    if i: nat, j: nat :| Around(before, behind, name, i, j) {
      assert i > 0 && name[..i][1..] == name[1..][..i - 1] && name[j..] == name[1..][j - 1..];
      assert Around(before[1..], behind, name[1..], i - 1, j - 1);
    }
    if Fits(before[0], name[0]) {
      if i: nat, j: nat :| Around(before[1..], behind, name[1..], i, j) {
        assert name[..i + 1][1..] == name[1..][..i] && name[j + 1..] == name[1..][j..];
        assert Around(before, behind, name, i + 1, j + 1);
      }
    }
  }

  /** As Glob, but what follows a star must match a text that is not empty. */
  ghost predicate GlobRest(pattern: string, name: string)
    decreases |pattern|
  {
    if pattern == "" then name == ""
    else if pattern == [STAR] then true
    else if pattern[0] == STAR then exists k :: 0 <= k < |name| && GlobRest(pattern[1..], name[k..])
    else name != "" && Fits(pattern[0], name[0]) && GlobRest(pattern[1..], name[1..])
  }

  /** The matcher steps over the end of the name: a question mark meets it, at once or in the first of the attempts
      behind a star that do not fail properly. */
  ghost predicate StepsOver(pattern: string, name: string)
    decreases |pattern|
  {
    if pattern == "" then false
    else if pattern[0] == STAR then
      exists k :: 0 <= k < |name| && StepsOver(pattern[1..], name[k..])
        && forall j :: 0 <= j < k ==> !GlobRest(pattern[1..], name[j..])
    else if name == "" then pattern[0] == QUESTION
    else Fits(pattern[0], name[0]) && StepsOver(pattern[1..], name[1..])
  }

  predicate EndsInTwoStars(pattern: string) {
    |pattern| >= 2 && pattern[|pattern| - 2..] == [STAR, STAR]
  }

  /** Exactly what the matcher accepts. */
  ghost predicate Accepted(pattern: string, name: string) {
    if EndsInTwoStars(pattern) then name != "" && Glob(pattern, name[..|name| - 1]) else Glob(pattern, name)
  }

  lemma {:induction false} GlobEmpty(pattern: string)
    ensures Glob(pattern, "") <==> forall i :: 0 <= i < |pattern| ==> pattern[i] == STAR
  {
    if pattern != "" {
      GlobEmpty(pattern[1..]);
      assert forall i :: 0 < i < |pattern| ==> pattern[i] == pattern[1..][i - 1];
      assert ""[0..] == "";
    }
  }

  lemma TailEnds(pattern: string)
    requires |pattern| >= 3
    ensures EndsInTwoStars(pattern[1..]) <==> EndsInTwoStars(pattern)
  {
    assert pattern[1..][|pattern| - 3..] == pattern[|pattern| - 2..];
  }

  /** A leading star before something that does not match the empty text. */
  lemma StarNeedsText(pattern: string, name: string)
    requires |pattern| >= 2 && pattern[0] == STAR && !Glob(pattern[1..], "")
    requires forall k :: 0 <= k < |name| ==> (GlobRest(pattern[1..], name[k..]) <==> Glob(pattern[1..], name[k..]))
    ensures GlobRest(pattern, name) <==> Glob(pattern, name)
  {
    var rest := pattern[1..];
    assert name[|name|..] == "";
    if GlobRest(pattern, name) {
      var k :| 0 <= k < |name| && GlobRest(rest, name[k..]);
      assert Glob(rest, name[k..]);
    }
    if Glob(pattern, name) {
      var k :| 0 <= k <= |name| && Glob(rest, name[k..]);
      assert GlobRest(rest, name[k..]);
    }
  }

  lemma NotAllStars(pattern: string)
    requires |pattern| >= 2 && pattern[0] == STAR && !EndsInTwoStars(pattern)
    ensures !Glob(pattern[1..], "")
  {
    GlobEmpty(pattern[1..]);
    var n := |pattern|;
    assert pattern[n - 1] == pattern[1..][n - 2];
    assert n > 2 ==> pattern[n - 2] == pattern[1..][n - 3];
  }

  lemma LiteralStep(pattern: string, name: string)
    requires pattern != "" && pattern[0] != STAR
    requires name != "" ==> (GlobRest(pattern[1..], name[1..]) <==> Glob(pattern[1..], name[1..]))
    ensures GlobRest(pattern, name) <==> Glob(pattern, name)
  {
  }

  /** Without two final stars, what follows a star never matches the empty text, so the two relations agree. */
  lemma {:induction false} RestIsGlob(pattern: string, name: string)
    requires !EndsInTwoStars(pattern)
    ensures GlobRest(pattern, name) <==> Glob(pattern, name)
    decreases |pattern|
  {
    if pattern == "" {
    } else if pattern == [STAR] {
      OneStar(name);
    } else {
      if |pattern| >= 3 {
        TailEnds(pattern);
      }
      if pattern[0] == STAR {
        NotAllStars(pattern);
        forall k | 0 <= k < |name| ensures GlobRest(pattern[1..], name[k..]) <==> Glob(pattern[1..], name[k..]) {
          RestIsGlob(pattern[1..], name[k..]);
        }
        StarNeedsText(pattern, name);
      } else {
        if name != "" {
          RestIsGlob(pattern[1..], name[1..]);
        }
        LiteralStep(pattern, name);
      }
    }
  }

  lemma OneStar(name: string)
    ensures Glob([STAR], name) && GlobRest([STAR], name)
  {
    assert [STAR][1..] == "" && Glob("", name[|name|..]);
  }

  lemma TwoStars(name: string)
    ensures Glob([STAR, STAR], name) && (GlobRest([STAR, STAR], name) <==> name != "")
  {
    assert [STAR, STAR][1..] == [STAR];
    OneStar(name[0..]);
  }

  /** A leading star: the texts left for the rest are the same up to the last character. */
  lemma StarShorter(pattern: string, name: string)
    requires |pattern| >= 3 && pattern[0] == STAR && name != ""
    requires forall k :: 0 <= k < |name| ==>
      (GlobRest(pattern[1..], name[k..]) <==> Glob(pattern[1..], name[..|name| - 1][k..]))
    ensures GlobRest(pattern, name) <==> Glob(pattern, name[..|name| - 1])
  {
    var rest, m := pattern[1..], name[..|name| - 1];
    if GlobRest(pattern, name) {
      var k :| 0 <= k < |name| && GlobRest(rest, name[k..]);
      assert Glob(rest, m[k..]);
    }
    if Glob(pattern, m) {
      var k :| 0 <= k <= |m| && Glob(rest, m[k..]);
      assert GlobRest(rest, name[k..]);
    }
  }

  /** With two final stars, the last of them insists on one more character. */
  lemma {:induction false} RestIsShorterGlob(pattern: string, name: string)
    requires EndsInTwoStars(pattern)
    ensures GlobRest(pattern, name) <==> name != "" && Glob(pattern, name[..|name| - 1])
    decreases |pattern|
  {
    if |pattern| == 2 {
      assert pattern == [STAR, STAR];
      TwoStars(name);
      if name != "" {
        TwoStars(name[..|name| - 1]);
      }
    } else if name != "" {
      TailEnds(pattern);
      if pattern[0] == STAR {
        forall k | 0 <= k < |name|
          ensures GlobRest(pattern[1..], name[k..]) <==> Glob(pattern[1..], name[..|name| - 1][k..])
        {
          RestIsShorterGlob(pattern[1..], name[k..]);
          assert name[k..][..|name[k..]| - 1] == name[..|name| - 1][k..];
        }
        StarShorter(pattern, name);
      } else {
        RestIsShorterGlob(pattern[1..], name[1..]);
        assert |name| >= 2 ==> name[1..][..|name[1..]| - 1] == name[..|name| - 1][1..];
      }
    }
  }

  lemma RestIsAccepted(pattern: string, name: string)
    ensures GlobRest(pattern, name) <==> Accepted(pattern, name)
  {
    if EndsInTwoStars(pattern) {
      RestIsShorterGlob(pattern, name);
    } else {
      RestIsGlob(pattern, name);
    }
  }

  lemma SliceOfSlice(name: string, k: nat, j: nat)
    requires k + j <= |name|
    ensures name[k..][j..] == name[k + j..]
  {
  }

  /** Where the matcher steps over the end, neither the name nor any end of it matches. */
  lemma {:induction false} NoEndMatches(pattern: string, name: string, t: nat)
    requires StepsOver(pattern, name) && t <= |name|
    ensures !GlobRest(pattern, name[t..])
    decreases |pattern|, 2
  {
    var rest := pattern[1..];
    if pattern[0] == STAR {
      var k :| 0 <= k < |name| && StepsOver(rest, name[k..]) && forall j :: 0 <= j < k ==> !GlobRest(rest, name[j..]);
      NothingBehindStar(pattern, name, t, k);
    } else if name != "" && t < |name| {
      NoEndMatches(rest, name[1..], t);
      SliceOfSlice(name, 1, t);
      SliceOfSlice(name, t, 1);
    }
  }

  lemma NothingBehindStar(pattern: string, name: string, t: nat, k: nat)
    requires |pattern| > 1 && pattern[0] == STAR && t <= |name| && k < |name|
    requires StepsOver(pattern[1..], name[k..]) && forall j :: 0 <= j < k ==> !GlobRest(pattern[1..], name[j..])
    ensures !GlobRest(pattern, name[t..])
    decreases |pattern|, 0
  {
    hide GlobRest, StepsOver;
    var rest, end := pattern[1..], name[t..];
    forall j | 0 <= j < |end| ensures !GlobRest(rest, end[j..]) {
      SliceOfSlice(name, t, j);
      EndFails(rest, name, t + j, k);
    }
    StarFails(pattern, end);
  }

  lemma StarFails(pattern: string, name: string)
    requires |pattern| > 1 && pattern[0] == STAR
    requires forall j :: 0 <= j < |name| ==> !GlobRest(pattern[1..], name[j..])
    ensures !GlobRest(pattern, name)
  {
  }

  lemma EndFails(rest: string, name: string, i: nat, k: nat)
    requires i < |name| && k < |name| && StepsOver(rest, name[k..])
    requires forall j :: 0 <= j < k ==> !GlobRest(rest, name[j..])
    ensures !GlobRest(rest, name[i..])
    decreases |rest|, 3
  {
    hide GlobRest, StepsOver;
    if i >= k {
      NoEndMatches(rest, name[k..], i - k);
      SliceOfSlice(name, k, i - k);
    }
  }

  /** The matcher steps over the end of a name only if the name is not accepted. */
  lemma StepsOverOnlyOnMismatch(pattern: string, name: string)
    requires StepsOver(pattern, name)
    ensures !Accepted(pattern, name)
  {
    NoEndMatches(pattern, name, 0);
    assert name[0..] == name;
    RestIsAccepted(pattern, name);
  }

  /** And only if the pattern has question marks. */
  lemma {:induction false} NoQuestionStaysInside(pattern: string, name: string)
    requires QUESTION !in pattern
    ensures !StepsOver(pattern, name)
    decreases |pattern|
  {
    if pattern != "" {
      assert pattern[0] in pattern;
      if pattern[0] == STAR {
        forall k | 0 <= k < |name| ensures !StepsOver(pattern[1..], name[k..]) {
          NoQuestionStaysInside(pattern[1..], name[k..]);
        }
      } else if name != "" {
        NoQuestionStaysInside(pattern[1..], name[1..]);
      }
    }
  }

  /** What the first character of a pattern decides. */
  lemma FirstCharacter(pattern: string, name: string)
    ensures pattern == "" ==> (GlobRest(pattern, name) <==> name == "") && !StepsOver(pattern, name)
    ensures pattern != "" && pattern[0] != STAR && name != "" && Fits(pattern[0], name[0]) ==>
      && (GlobRest(pattern, name) <==> GlobRest(pattern[1..], name[1..]))
      && (StepsOver(pattern, name) <==> StepsOver(pattern[1..], name[1..]))
    ensures pattern != "" && pattern[0] != STAR && !(name != "" && Fits(pattern[0], name[0])) ==>
      !GlobRest(pattern, name) && (StepsOver(pattern, name) <==> pattern[0] == QUESTION)
    ensures pattern == [STAR] ==> GlobRest(pattern, name) && !StepsOver(pattern, name)
  {
    if pattern == [STAR] {
      assert pattern[1..] == "";
    }
  }

  /** Matches terminates on every such pattern and name.  It steps over the end of the name exactly when StepsOver says
      so, and returns exactly Accepted otherwise. */
  method Matches(pattern: string, name: string) returns (ok: bool, over: bool)
    requires STAR !in name
    ensures over <==> StepsOver(pattern, name)
    ensures !over ==> (ok <==> Accepted(pattern, name))
    decreases |pattern|, 0
  {
    hide Glob, GlobRest, StepsOver, Accepted, EndsInTwoStars;
    RestIsAccepted(pattern, name);
    var p, q := 0, 0;
    while p < |pattern|
      invariant p <= |pattern| && q <= |name|
      invariant GlobRest(pattern, name) <==> GlobRest(pattern[p..], name[q..])
      invariant StepsOver(pattern, name) <==> StepsOver(pattern[p..], name[q..])
    {
      ghost var patt, nam := pattern[p..], name[q..];
      FirstCharacter(patt, nam);
      if q < |name| && (pattern[p] == name[q] || pattern[p] == QUESTION) {
        assert name[q] in name && pattern[p] != STAR;
        assert patt[1..] == pattern[p + 1..] && nam[1..] == name[q + 1..];
        p := p + 1;
        q := q + 1;
      } else if pattern[p] == QUESTION {
        return false, true;
      } else if pattern[p] == STAR {
        p := p + 1;
        if p == |pattern| {
          assert patt == [STAR] && patt[1..] == "";
          return true, false;
        }
        assert patt == [STAR] + pattern[p..];
        ok, over := MatchesSomewhere(pattern[p..], name[q..], patt);
        return;
      } else {
        return false, false;
      }
    }
    FirstCharacter(pattern[p..], name[q..]);
    return q == |name|, false;
  }

  /** The loop behind a star: the rest of the pattern is tried against the name and its ends that are not empty. */
  method MatchesSomewhere(rest: string, name: string, ghost pattern: string) returns (ok: bool, over: bool)
    requires STAR !in name && rest != "" && pattern == [STAR] + rest
    ensures over <==> StepsOver(pattern, name)
    ensures !over ==> (ok <==> GlobRest(pattern, name))
    decreases |rest|, 1
  {
    assert pattern[1..] == rest;
    var q := 0;
    while q < |name|
      invariant q <= |name|
      invariant forall k :: 0 <= k < q ==> !GlobRest(rest, name[k..]) && !StepsOver(rest, name[k..])
    {
      RestIsAccepted(rest, name[q..]);
      ok, over := Matches(rest, name[q..]);
      if over {
        return;
      }
      if ok {
        FoundFirst(rest, name, q);
        return;
      }
      q := q + 1;
    }
    return false, false;
  }

  /** Behind the first match nothing is tried. */
  lemma FoundFirst(rest: string, name: string, q: nat)
    requires q < |name| && rest != "" && GlobRest(rest, name[q..]) && !StepsOver(rest, name[q..])
    requires forall k :: 0 <= k < q ==> !StepsOver(rest, name[k..])
    ensures !StepsOver([STAR] + rest, name) && GlobRest([STAR] + rest, name)
  {
    assert ([STAR] + rest)[1..] == rest;
  }

  /** The smallest case in which the matcher and the meaning of a star part. */
  lemma TwoFinalStarsMiss()
    ensures Glob(['a', STAR, STAR], "a") && !Accepted(['a', STAR, STAR], "a")
  {
    assert ['a', STAR, STAR][1..] == [STAR, STAR] && [STAR, STAR][1..] == [STAR] && [STAR][1..] == "";
    assert "a"[1..] == "";
    GlobEmpty([STAR, STAR]);
    assert "a"[..0] == "";
    GlobEmpty(['a', STAR, STAR]);
    assert ['a', STAR, STAR][0] == 'a';
  }

  /** The smallest case in which the matcher steps over the end of the name. */
  lemma QuestionAtTheEnd()
    ensures StepsOver([QUESTION], "") && StepsOver(['a', QUESTION], "a") && !Accepted(['a', QUESTION], "a")
  {
    assert ['a', QUESTION][1..] == [QUESTION] && "a"[1..] == "";
    StepsOverOnlyOnMismatch(['a', QUESTION], "a");
  }

  /** The pattern without its stars: a name it matches, and none is shorter. */
  function Solid(pattern: string): (r: string)
    ensures STAR !in r
  {
    if pattern == "" then ""
    else if pattern[0] == STAR then Solid(pattern[1..])
    else [pattern[0]] + Solid(pattern[1..])
  }

  lemma {:induction false} SolidMatches(pattern: string)
    ensures Glob(pattern, Solid(pattern))
  {
    if pattern != "" {
      SolidMatches(pattern[1..]);
      var name := Solid(pattern);
      if pattern[0] == STAR {
        assert name[0..] == name;
      } else {
        assert name[1..] == Solid(pattern[1..]);
      }
    }
  }

  lemma {:induction false} SolidIsShortest(pattern: string, name: string)
    requires Glob(pattern, name)
    ensures |name| >= |Solid(pattern)|
    decreases |pattern|
  {
    if pattern == "" {
    } else if pattern[0] == STAR {
      var k :| 0 <= k <= |name| && Glob(pattern[1..], name[k..]);
      SolidIsShortest(pattern[1..], name[k..]);
    } else {
      SolidIsShortest(pattern[1..], name[1..]);
    }
  }

  /** The matcher decides the glob relation for all names exactly when the pattern does not end in two stars: such a
      pattern misses, of the names it should match, the shortest. */
  lemma ExactlyWhen(pattern: string)
    ensures (forall name :: STAR !in name ==> (Accepted(pattern, name) <==> Glob(pattern, name)))
      <==> !EndsInTwoStars(pattern)
  {
    if EndsInTwoStars(pattern) {
      var name := Solid(pattern);
      SolidMatches(pattern);
      if Accepted(pattern, name) {
        SolidIsShortest(pattern, name[..|name| - 1]);
      }
      assert Glob(pattern, name) && !Accepted(pattern, name);
    }
  }
}
