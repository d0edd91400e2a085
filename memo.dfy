/**
  `trimMemo` (transaction/transaction.go): cut off the end-to-end reference,
  collapse white space, trim.  The lemmas state the invariant every memo the
  extractor returns keeps.
 */
module Memo {
  import opened Wrappers
  import opened Strings

  /** The literal that starts the payment network's end-to-end reference. */
  const RefMarker: string := " End-to-End-Ref.: "

  /**
    The regex ` End-to-End-Ref\.: .*$` matches at `i`: the marker starts there
    and the rest of the text holds no newline (`.` excludes `\n`, and without
    the `m` flag `$` is the end of the text).
   */
  predicate RefMatchAt(s: string, i: int) {
    OccursAt(s, RefMarker, i) && '\n' !in s[i + |RefMarker|..]
  }

  /** The leftmost position at or after `k` where the reference regex matches. */
  function FirstRefMatchFrom(s: string, k: nat): (r: Option<nat>)
    requires k <= |s|
    decreases |s| - k
    ensures r.Some? ==> k <= r.value <= |s| && RefMatchAt(s, r.value)
    ensures r.Some? ==> forall i :: k <= i < r.value ==> !RefMatchAt(s, i)
    ensures r.None? ==> forall i :: k <= i ==> !RefMatchAt(s, i)
  {
    if RefMatchAt(s, k) then Some(k)
    else if k == |s| then None
    else FirstRefMatchFrom(s, k + 1)
  }

  /**
    `memoRegex.ReplaceAllString(s, "")`: the text before the leftmost match of
    the reference regex; a match runs to the end of the text, so there is at
    most one.
   */
  function StripRef(s: string): (r: string)
    ensures |r| <= |s| && r == s[..|r|]
    ensures |r| == |s| || RefMatchAt(s, |r|)
    ensures forall i :: 0 <= i < |r| ==> !RefMatchAt(s, i)
    ensures |r| == |s| ==> forall i :: !RefMatchAt(s, i)
  {
    match FirstRefMatchFrom(s, 0)
    case Some(i) => s[..i]
    case None => s
  }

  /**
    `regexp.MustCompile(`\s+`).ReplaceAllString(s, " ")`: every maximal run of
    RE2 white space becomes a single space.  A white-space character followed
    by another one is dropped; the last one of a run becomes the space.
   */
  function CollapseSpace(s: string): (r: string)
    ensures r == [] <==> s == []
    ensures r != [] ==> (IsRegexSpace(r[0]) <==> IsRegexSpace(s[0]))
    ensures r != [] ==> (IsRegexSpace(r[|r| - 1]) <==> IsRegexSpace(s[|s| - 1]))
    ensures SingleSpaced(r)
  {
    if s == [] then []
    else if !IsRegexSpace(s[0]) then [s[0]] + CollapseSpace(s[1..])
    else if |s| > 1 && IsRegexSpace(s[1]) then CollapseSpace(s[1..])
    else " " + CollapseSpace(s[1..])
  }

  /** Spaces collapsed, then `strings.TrimSpace`. */
  function NormalizeSpace(s: string): string {
    TrimSpace(CollapseSpace(s))
  }

  /** `trimMemo`: every memo it produces is trimmed and single-spaced. */
  function TrimMemo(s: string): (r: string)
    ensures Clean(r)
  {
    TrimSpaceClean(CollapseSpace(StripRef(s)));
    NormalizeSpace(StripRef(s))
  }

  /** The only RE2 white space is the plain space, and never two in a row. */
  predicate SingleSpaced(s: string) {
    && (forall i :: 0 <= i < |s| && IsRegexSpace(s[i]) ==> s[i] == ' ')
    && (forall i :: 0 <= i < |s| - 1 && IsRegexSpace(s[i]) ==> !IsRegexSpace(s[i + 1]))
  }

  /** The shape every memo has: trimmed and single-spaced. */
  predicate Clean(s: string) {
    Trimmed(s) && SingleSpaced(s)
  }

  /** The text with all RE2 white space removed. */
  function NonSpace(s: string): string {
    if s == [] then []
    else if IsRegexSpace(s[0]) then NonSpace(s[1..])
    else [s[0]] + NonSpace(s[1..])
  }

  /** Collapsing white space neither loses nor adds any other character. */
  lemma {:induction false} CollapseSpaceKeepsText(s: string)
    ensures NonSpace(CollapseSpace(s)) == NonSpace(s)
  {
    if s != [] {
      CollapseSpaceKeepsText(s[1..]);
      if !IsRegexSpace(s[0]) {
        assert ([s[0]] + CollapseSpace(s[1..]))[1..] == CollapseSpace(s[1..]);
      } else if !(|s| > 1 && IsRegexSpace(s[1])) {
        assert (" " + CollapseSpace(s[1..]))[1..] == CollapseSpace(s[1..]);
      }
    }
  }

  /** A non-empty run of white space, followed by a non-space or nothing, becomes one space. */
  lemma {:induction false} CollapseRun(w: string, v: string)
    requires w != [] && forall k :: 0 <= k < |w| ==> IsRegexSpace(w[k])
    requires v == [] || !IsRegexSpace(v[0])
    ensures CollapseSpace(w + v) == " " + CollapseSpace(v)
  {
    assert (w + v)[0] == w[0];
    assert (w + v)[1..] == w[1..] + v;
    if |w| > 1 {
      assert (w + v)[1] == w[1];
      CollapseRun(w[1..], v);
    }
  }

  /** Regrouping `a + (b + " " + c)`, kept apart so that the step is proved outside the collapsing context. */
  lemma ConcatAroundSpace(a: string, b: string, c: string)
    ensures a + (b + " " + c) == (a + b) + " " + c
  {
  }

  /**
    Each maximal run of white space becomes a single space in its place: with
    `u` ending and `v` starting in a non-space, the run `w` between them turns
    into one space and both sides are collapsed on their own.
   */
  lemma {:induction false} CollapseRunInPlace(u: string, w: string, v: string)
    requires w != [] && forall k :: 0 <= k < |w| ==> IsRegexSpace(w[k])
    requires u == [] || !IsRegexSpace(u[|u| - 1])
    requires v == [] || !IsRegexSpace(v[0])
    ensures CollapseSpace(u + w + v) == CollapseSpace(u) + " " + CollapseSpace(v)
  {
    if u == [] {
      assert u + w + v == w + v;
      CollapseRun(w, v);
    } else {
      var s, x := u + w + v, u[1..] + w + v;
      assert s[0] == u[0] && s[1..] == x;
      CollapseRunInPlace(u[1..], w, v);
      var cx, cu, cv := CollapseSpace(x), CollapseSpace(u[1..]), CollapseSpace(v);
      assert cx == cu + " " + cv;
      if !IsRegexSpace(u[0]) {
        assert CollapseSpace(s) == [u[0]] + cx;
        assert CollapseSpace(u) == [u[0]] + cu;
        ConcatAroundSpace([u[0]], cu, cv);
      } else {
        assert |u| > 1 && s[1] == u[1];
        if IsRegexSpace(u[1]) {
          assert CollapseSpace(s) == cx;
          assert CollapseSpace(u) == cu;
        } else {
          assert CollapseSpace(s) == " " + cx;
          assert CollapseSpace(u) == " " + cu;
          ConcatAroundSpace(" ", cu, cv);
        }
      }
    }
  }

  /** Text that is already single-spaced is left as it is. */
  lemma {:induction false} CollapseSpaceFixpoint(s: string)
    requires SingleSpaced(s)
    ensures CollapseSpace(s) == s
  {
    if s != [] {
      assert SingleSpaced(s[1..]) by {
        forall i | 0 <= i < |s[1..]| - 1 && IsRegexSpace(s[1..][i])
          ensures !IsRegexSpace(s[1..][i + 1])
        {
          assert s[1..][i] == s[i + 1] && s[1..][i + 1] == s[i + 2];
        }
      }
      CollapseSpaceFixpoint(s[1..]);
      assert s == [s[0]] + s[1..];
    }
  }

  lemma SingleSpacedSlice(s: string, a: int, b: int)
    requires SingleSpaced(s) && 0 <= a <= b <= |s|
    ensures SingleSpaced(s[a..b])
  {
    forall i | 0 <= i < b - a - 1 && IsRegexSpace(s[a..b][i])
      ensures !IsRegexSpace(s[a..b][i + 1])
    {
      assert s[a..b][i] == s[a + i] && s[a..b][i + 1] == s[a + i + 1];
    }
  }

  /** Trimming single-spaced text gives clean text. */
  lemma TrimSpaceClean(s: string)
    requires SingleSpaced(s)
    ensures Clean(TrimSpace(s))
  {
    SingleSpacedSlice(s, TrimBounds(s).0, TrimBounds(s).1);
  }

  /** Text with no white space at either end is left as it is by `strings.TrimSpace`. */
  lemma TrimSpaceFixpoint(s: string)
    requires Trimmed(s)
    ensures TrimSpace(s) == s
  {
  }

  /** `trimMemo` leaves clean text without a reference match alone. */
  lemma TrimMemoFixpoint(s: string)
    requires Clean(s)
    requires forall i :: !RefMatchAt(s, i)
    ensures TrimMemo(s) == s
  {
    CollapseSpaceFixpoint(s);
    TrimSpaceFixpoint(s);
  }

  /**
    When the marker is followed by newline-free text up to the end, the marker
    and everything after it are gone: the memo is the normalised form of some
    prefix of the text before it.
   */
  lemma RefTailRemoved(p: string, t: string)
    requires '\n' !in t
    ensures exists k | 0 <= k <= |p| :: TrimMemo(p + RefMarker + t) == NormalizeSpace(p[..k])
  {
    var s := p + RefMarker + t;
    assert s[|p|..|p| + |RefMarker|] == RefMarker;
    assert s[|p| + |RefMarker|..] == t;
    assert RefMatchAt(s, |p|);
    var q := StripRef(s);
    assert |q| <= |p|;
    assert q == p[..|q|];
  }

  /** In text without newlines, no marker survives the cut. */
  lemma NoNewlineNoMarker(s: string)
    requires '\n' !in s
    ensures !Contains(StripRef(s), RefMarker)
  {
    var q := StripRef(s);
    if Contains(q, RefMarker) {
      var i :| 0 <= i <= |q| - |RefMarker| && OccursAt(q, RefMarker, i);
      assert s[i..i + |RefMarker|] == q[i..i + |RefMarker|];
      assert '\n' !in s[i + |RefMarker|..] by {
        forall j | i + |RefMarker| <= j < |s| ensures s[j] != '\n' {
          assert s[j] in s;
        }
      }
      assert RefMatchAt(s, i);
      assert false;
    }
  }
}
