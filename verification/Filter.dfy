/**
 The container name filter of the monitoring agent (agent/src/filter.rs).

 `glob_match` walks pattern and text once and remembers only the last star it passed. `Verdict`
 is the outcome of that walk as a function of its four variables; the method `GlobMatch` is the
 loop itself. The results: an accepted text always matches (`AcceptedTextMatches`), on texts with
 no star before their last byte nothing is lost by forgetting the earlier stars
 (`AcceptsExactly`), and those are the only texts for which that is so (`ExactTexts`).
 */
module Filter {
  import opened Common
  import opened Globs

  // ---------- the meaning of a filter pattern ----------

  /** Every star of a filter pattern covers any byte string, other bytes cover themselves. */
  function Compile(pattern: seq<Byte>): (tokens: seq<Token>)
    ensures |tokens| == |pattern|
    ensures forall i :: 0 <= i < |pattern| ==>
              tokens[i] == if pattern[i] == STAR then AnyText else Literal(pattern[i])
  {
    seq(|pattern|, i requires 0 <= i < |pattern| => if pattern[i] == STAR then AnyText else Literal(pattern[i]))
  }

  // ---------- the walk ----------

  /** `pi`, `ti`, `star` and `star_consumed` of the source. */
  datatype Walk = Walk(p: nat, t: nat, star: Option<nat>, consumed: nat)

  const START := Walk(0, 0, None, 0)

  predicate InBounds(pattern: seq<Byte>, text: seq<Byte>, w: Walk) {
    && w.p <= |pattern|
    && w.consumed <= w.t <= |text|
    && (w.star.Some? ==> w.star.value < w.p)
  }

  predicate AllStars(pattern: seq<Byte>) {
    forall i :: 0 <= i < |pattern| ==> pattern[i] == STAR
  }

  predicate Verdict(pattern: seq<Byte>, text: seq<Byte>, w: Walk)
    requires InBounds(pattern, text, w)
    decreases |text| - w.consumed, |pattern| - w.p
  {
    if w.t == |text| then
      AllStars(pattern[w.p..])
    else if w.p < |pattern| && pattern[w.p] == text[w.t] then
      Verdict(pattern, text, w.(p := w.p + 1, t := w.t + 1))
    else if w.p < |pattern| && pattern[w.p] == STAR then
      Verdict(pattern, text, Walk(w.p + 1, w.t, Some(w.p), w.t))
    else if w.star.Some? then
      Verdict(pattern, text, Walk(w.star.value + 1, w.consumed + 1, w.star, w.consumed + 1))
    else
      false
  }

  predicate Accepts(pattern: seq<Byte>, text: seq<Byte>) {
    Verdict(pattern, text, START)
  }

  /** The texts on which a star byte of the text can never be mistaken for one of the pattern. */
  predicate StarOnlyLast(text: seq<Byte>) {
    forall i :: 0 <= i < |text| - 1 ==> text[i] != STAR
  }

  /**
   The loop of the source. It agrees with `Verdict`, and therefore with the meaning of the
   pattern, and it makes at most (|text|+1) * |pattern| + |text| rounds.
   */
  method GlobMatch(pattern: seq<Byte>, text: seq<Byte>) returns (matched: bool, ghost rounds: nat)
    ensures matched == Accepts(pattern, text)
    ensures matched ==> Matches(Compile(pattern), text)
    ensures StarOnlyLast(text) ==> (matched <==> Matches(Compile(pattern), text))
    ensures rounds <= (|text| + 1) * |pattern| + |text|
  {
    var p: nat, t: nat := 0, 0;
    var star: Option<nat> := None;
    var consumed: nat := 0;
    rounds := 0;
    while t < |text|
      invariant InBounds(pattern, text, Walk(p, t, star, consumed))
      invariant Verdict(pattern, text, Walk(p, t, star, consumed)) == Accepts(pattern, text)
      invariant rounds <= consumed * (|pattern| + 1) + p && (star.None? ==> consumed == 0)
      decreases |text| - consumed, |pattern| - p
    {
      ghost var before := consumed;
      if p < |pattern| && pattern[p] == text[t] {
        p, t := p + 1, t + 1;
      } else if p < |pattern| && pattern[p] == STAR {
        star, consumed, p := Some(p), t, p + 1;
      } else if star.Some? {
        p, consumed := star.value + 1, consumed + 1;
        t := consumed;
      } else {
        BoundGrows(before, |text|, |pattern|);
        MeansWhatItSays(pattern, text);
        return false, rounds + 1;
      }
      BoundGrows(before, consumed, |pattern|);
      rounds := rounds + 1;
    }
    BoundGrows(consumed, |text|, |pattern|);
    ghost var q := p;
    while p < |pattern| && pattern[p] == STAR
      invariant q <= p <= |pattern|
      invariant forall i :: q <= i < p ==> pattern[i] == STAR
    {
      p := p + 1;
    }
    if p < |pattern| {
      assert pattern[q..][p - q] == pattern[p];
    }
    matched := p == |pattern|;
    MeansWhatItSays(pattern, text);
  }

  lemma MeansWhatItSays(pattern: seq<Byte>, text: seq<Byte>)
    ensures Accepts(pattern, text) ==> Matches(Compile(pattern), text)
    ensures StarOnlyLast(text) ==> (Accepts(pattern, text) <==> Matches(Compile(pattern), text))
  {
    AcceptedTextMatches(pattern, text);
    if StarOnlyLast(text) {
      AcceptsExactly(pattern, text);
    }
  }

  lemma BoundGrows(a: nat, b: nat, m: nat)
    requires a <= b
    ensures a * (m + 1) <= b * (m + 1)
    ensures a < b ==> a * (m + 1) + m + 1 <= b * (m + 1)
    ensures b * (m + 1) + m == (b + 1) * m + b
  {
    Multiples(a, b, m + 1);
    assert b * (m + 1) == b * m + b && (b + 1) * m == b * m + m;
  }

  lemma {:induction false} Multiples(a: nat, b: nat, k: nat)
    requires a <= b
    ensures a * k <= b * k && (a < b ==> a * k + k <= b * k)
    decreases b
  {
    if a < b {
      Multiples(a, b - 1, k);
      assert b * k == (b - 1) * k + k;
    }
  }

  // ---------- forgetting the earlier stars ----------

  /**
   What the walk can still find: the rest of the pattern here, or the pattern after the last
   star at some position beyond the one it was last tried at.
   */
  ghost predicate StillPossible(pattern: seq<Byte>, text: seq<Byte>, w: Walk)
    requires InBounds(pattern, text, w)
  {
    var tokens := Compile(pattern);
    || Matches(tokens[w.p..], text[w.t..])
    || (w.star.Some? && exists k :: w.consumed < k <= |text| && Matches(tokens[w.star.value + 1..], text[k..]))
  }

  lemma {:induction false} StarsMatchNothing(pattern: seq<Byte>)
    ensures AllStars(pattern) <==> Matches(Compile(pattern), [])
  {
    var tokens := Compile(pattern);
    if pattern == [] {
      MatchesNothing([]);
      assert tokens == [];
    } else {
      StarsMatchNothing(pattern[1..]);
      assert Compile(pattern[1..]) == tokens[1..];
      if pattern[0] == STAR {
        MatchesWildcard(tokens, []);
        if AllStars(pattern[1..]) {
          forall i | 0 <= i < |pattern| ensures pattern[i] == STAR {
            if i > 0 {
              assert pattern[i] == pattern[1..][i - 1];
            }
          }
        }
      } else {
        MatchesLiteral(tokens, []);
      }
    }
  }

  lemma EndOfText(pattern: seq<Byte>, p: nat)
    requires p <= |pattern|
    ensures AllStars(pattern[p..]) <==> Matches(Compile(pattern)[p..], [])
  {
    StarsMatchNothing(pattern[p..]);
    assert Compile(pattern[p..]) == Compile(pattern)[p..];
  }

  /** The walk claims nothing that is not there, whatever the text holds. */
  lemma {:induction false} VerdictIsSound(pattern: seq<Byte>, text: seq<Byte>, w: Walk)
    requires InBounds(pattern, text, w)
    requires Verdict(pattern, text, w)
    ensures StillPossible(pattern, text, w)
    decreases |text| - w.consumed, |pattern| - w.p
  {
    var tokens := Compile(pattern);
    if w.t == |text| {
      EndOfText(pattern, w.p);
      assert text[w.t..] == [];
    } else if w.p < |pattern| && pattern[w.p] == text[w.t] {
      VerdictIsSound(pattern, text, w.(p := w.p + 1, t := w.t + 1));
      assert tokens[w.p..][1..] == tokens[w.p + 1..];
      assert text[w.t..][1..] == text[w.t + 1..];
      if Matches(tokens[w.p + 1..], text[w.t + 1..]) {
        if pattern[w.p] == STAR {
          MatchesAnyText(tokens[w.p..], text[w.t..]);
        } else {
          MatchesLiteral(tokens[w.p..], text[w.t..]);
        }
      }
    } else if w.p < |pattern| && pattern[w.p] == STAR {
      VerdictIsSound(pattern, text, Walk(w.p + 1, w.t, Some(w.p), w.t));
      StarAhead(pattern, text, w.p, w.t);
    } else {
      VerdictIsSound(pattern, text, Walk(w.star.value + 1, w.consumed + 1, w.star, w.consumed + 1));
    }
  }

  /** A star in the pattern: its rest starts at this position or at a later one. */
  lemma StarAhead(pattern: seq<Byte>, text: seq<Byte>, p: nat, t: nat)
    requires p < |pattern| && t <= |text| && pattern[p] == STAR
    ensures Matches(Compile(pattern)[p..], text[t..]) <==>
            exists k :: t <= k <= |text| && Matches(Compile(pattern)[p + 1..], text[k..])
  {
    var tokens := Compile(pattern);
    assert tokens[p..][1..] == tokens[p + 1..];
    MatchesAnyText(tokens[p..], text[t..]);
    if Matches(tokens[p..], text[t..]) {
      var k :| 0 <= k <= |text[t..]| && Matches(tokens[p + 1..], text[t..][k..]);
      assert text[t..][k..] == text[t + k..];
    }
    if k :| t <= k <= |text| && Matches(tokens[p + 1..], text[k..]) {
      assert text[t..][k - t..] == text[k..];
    }
  }

  /** A run of literals moves pattern and text forward together. */
  lemma {:induction false} LiteralRun(tokens: seq<Token>, text: seq<Byte>, a: nat, b: nat, k: nat)
    requires a <= b <= |tokens| && k <= |text|
    requires forall i :: a <= i < b ==> tokens[i].Literal?
    requires Matches(tokens[a..], text[k..])
    ensures k + (b - a) <= |text|
    ensures Matches(tokens[b..], text[k + (b - a)..])
    decreases b - a
  {
    if a < b {
      MatchesLiteral(tokens[a..], text[k..]);
      assert tokens[a..][1..] == tokens[a + 1..];
      assert text[k..][1..] == text[k + 1..];
      LiteralRun(tokens, text, a + 1, b, k + 1);
    }
  }

  /** Since the last star only literals were passed, one text byte for each. */
  predicate LiteralsSinceStar(pattern: seq<Byte>, text: seq<Byte>, w: Walk)
    requires InBounds(pattern, text, w)
  {
    w.star.Some? ==>
      && w.t - w.consumed == w.p - w.star.value - 1
      && forall i :: w.star.value < i < w.p ==> pattern[i] != STAR
  }

  /** A match through an older star also places the pattern after the present position. */
  lemma OlderStarReaches(pattern: seq<Byte>, text: seq<Byte>, w: Walk, k: nat)
    requires InBounds(pattern, text, w) && LiteralsSinceStar(pattern, text, w) && w.star.Some?
    requires w.consumed < k <= |text| && Matches(Compile(pattern)[w.star.value + 1..], text[k..])
    ensures w.t < k + (w.p - w.star.value - 1) <= |text|
    ensures Matches(Compile(pattern)[w.p..], text[k + (w.p - w.star.value - 1)..])
  {
    LiteralRun(Compile(pattern), text, w.star.value + 1, w.p, k);
  }

  lemma EndStillPossible(pattern: seq<Byte>, text: seq<Byte>, w: Walk)
    requires InBounds(pattern, text, w) && LiteralsSinceStar(pattern, text, w)
    requires w.t == |text| && StillPossible(pattern, text, w)
    ensures AllStars(pattern[w.p..])
  {
    if !Matches(Compile(pattern)[w.p..], text[w.t..]) {
      var k :| w.consumed < k <= |text| && Matches(Compile(pattern)[w.star.value + 1..], text[k..]);
      OlderStarReaches(pattern, text, w, k);
    }
    assert text[w.t..] == [];
    EndOfText(pattern, w.p);
  }

  lemma LiteralStillPossible(pattern: seq<Byte>, text: seq<Byte>, w: Walk)
    requires InBounds(pattern, text, w) && StillPossible(pattern, text, w)
    requires w.t < |text| && w.p < |pattern| && pattern[w.p] == text[w.t] != STAR
    ensures StillPossible(pattern, text, w.(p := w.p + 1, t := w.t + 1))
  {
    var tokens := Compile(pattern);
    assert tokens[w.p..][1..] == tokens[w.p + 1..];
    assert text[w.t..][1..] == text[w.t + 1..];
    MatchesLiteral(tokens[w.p..], text[w.t..]);
  }

  /** At a new star every older alternative is covered, so the older star can be forgotten. */
  lemma StarStillPossible(pattern: seq<Byte>, text: seq<Byte>, w: Walk)
    requires InBounds(pattern, text, w) && LiteralsSinceStar(pattern, text, w)
    requires w.p < |pattern| && pattern[w.p] == STAR && StillPossible(pattern, text, w)
    ensures StillPossible(pattern, text, Walk(w.p + 1, w.t, Some(w.p), w.t))
  {
    var tokens := Compile(pattern);
    if Matches(tokens[w.p..], text[w.t..]) {
      StarAhead(pattern, text, w.p, w.t);
    } else {
      var k :| w.consumed < k <= |text| && Matches(tokens[w.star.value + 1..], text[k..]);
      OlderStarReaches(pattern, text, w, k);
      StarAhead(pattern, text, w.p, k + (w.p - w.star.value - 1));
    }
  }

  /** At a dead end the last star is there to fall back on. */
  lemma RetryStillPossible(pattern: seq<Byte>, text: seq<Byte>, w: Walk)
    requires InBounds(pattern, text, w) && StillPossible(pattern, text, w) && w.t < |text|
    requires w.p < |pattern| ==> pattern[w.p] != text[w.t] && pattern[w.p] != STAR
    ensures w.star.Some? && w.consumed < |text|
    ensures InBounds(pattern, text, Walk(w.star.value + 1, w.consumed + 1, w.star, w.consumed + 1))
    ensures StillPossible(pattern, text, Walk(w.star.value + 1, w.consumed + 1, w.star, w.consumed + 1))
  {
    DeadEnd(pattern, text, w);
  }

  /** Forgetting all but the last star loses no match. */
  lemma {:induction false} VerdictIsComplete(pattern: seq<Byte>, text: seq<Byte>, w: Walk)
    requires InBounds(pattern, text, w) && LiteralsSinceStar(pattern, text, w)
    requires StarOnlyLast(text)
    requires StillPossible(pattern, text, w)
    ensures Verdict(pattern, text, w)
    decreases |text| - w.consumed, |pattern| - w.p
  {
    if w.t == |text| {
      EndStillPossible(pattern, text, w);
    } else if w.p < |pattern| && pattern[w.p] == text[w.t] {
      if pattern[w.p] == STAR {
        StarOverLastByte(pattern, text, w);
      } else {
        LiteralStillPossible(pattern, text, w);
        VerdictIsComplete(pattern, text, w.(p := w.p + 1, t := w.t + 1));
      }
    } else if w.p < |pattern| && pattern[w.p] == STAR {
      StarStillPossible(pattern, text, w);
      VerdictIsComplete(pattern, text, Walk(w.p + 1, w.t, Some(w.p), w.t));
    } else {
      RetryStillPossible(pattern, text, w);
      VerdictIsComplete(pattern, text, Walk(w.star.value + 1, w.consumed + 1, w.star, w.consumed + 1));
    }
  }

  /** Neither the next byte nor a star: the pattern cannot go on here. */
  lemma DeadEnd(pattern: seq<Byte>, text: seq<Byte>, w: Walk)
    requires InBounds(pattern, text, w) && w.t < |text|
    requires w.p < |pattern| ==> pattern[w.p] != text[w.t] && pattern[w.p] != STAR
    ensures !Matches(Compile(pattern)[w.p..], text[w.t..])
  {
    var tokens := Compile(pattern);
    if w.p < |pattern| {
      MatchesLiteral(tokens[w.p..], text[w.t..]);
    } else {
      MatchesNothing(text[w.t..]);
      assert tokens[w.p..] == [];
    }
  }

  /** A star of the pattern taken for the star that ends the text: the rest must match nothing. */
  lemma StarOverLastByte(pattern: seq<Byte>, text: seq<Byte>, w: Walk)
    requires InBounds(pattern, text, w) && LiteralsSinceStar(pattern, text, w)
    requires StillPossible(pattern, text, w)
    requires w.t == |text| - 1 && w.p < |pattern| && pattern[w.p] == text[w.t] == STAR
    ensures AllStars(pattern[w.p + 1..])
  {
    var tokens := Compile(pattern);
    if !Matches(tokens[w.p..], text[w.t..]) {
      var k :| w.consumed < k <= |text| && Matches(tokens[w.star.value + 1..], text[k..]);
      OlderStarReaches(pattern, text, w, k);
      assert text[|text|..] == [];
      EndOfText(pattern, w.p);
      assert pattern[w.p..][1..] == pattern[w.p + 1..];
    } else {
      RestMatchesNothing(pattern, text, w.p);
      EndOfText(pattern, w.p + 1);
    }
  }

  lemma RestMatchesNothing(pattern: seq<Byte>, text: seq<Byte>, p: nat)
    requires text != [] && text[|text| - 1] == STAR && p < |pattern| && pattern[p] == STAR
    requires Matches(Compile(pattern)[p..], text[|text| - 1..])
    ensures Matches(Compile(pattern)[p + 1..], [])
  {
    StarAhead(pattern, text, p, |text| - 1);
    var k :| |text| - 1 <= k <= |text| && Matches(Compile(pattern)[p + 1..], text[k..]);
    if k < |text| {
      assert text[k..] == [STAR];
      OnlyStarsCoverStar(pattern, p + 1);
    } else {
      assert text[k..] == [];
    }
  }

  /** No literal of a compiled pattern is a star, so a star byte is covered by wildcards alone. */
  lemma {:induction false} OnlyStarsCoverStar(pattern: seq<Byte>, p: nat)
    requires p <= |pattern| && Matches(Compile(pattern)[p..], [STAR])
    ensures Matches(Compile(pattern)[p..], [])
    decreases |pattern| - p
  {
    var tokens := Compile(pattern);
    if p == |pattern| {
      MatchesNothing([STAR]);
    } else if pattern[p] == STAR {
      assert tokens[p..][1..] == tokens[p + 1..];
      MatchesWildcard(tokens[p..], [STAR]);
      MatchesWildcard(tokens[p..], []);
      if Matches(tokens[p + 1..], [STAR]) {
        OnlyStarsCoverStar(pattern, p + 1);
      } else {
        assert [STAR][1..] == [];
      }
    } else {
      MatchesLiteral(tokens[p..], [STAR]);
    }
  }

  // ---------- main results ----------

  lemma AcceptedTextMatches(pattern: seq<Byte>, text: seq<Byte>)
    ensures Accepts(pattern, text) ==> Matches(Compile(pattern), text)
  {
    if Accepts(pattern, text) {
      VerdictIsSound(pattern, text, START);
      assert Compile(pattern)[0..] == Compile(pattern) && text[0..] == text;
    }
  }

  lemma AcceptsExactly(pattern: seq<Byte>, text: seq<Byte>)
    requires StarOnlyLast(text)
    ensures Accepts(pattern, text) <==> Matches(Compile(pattern), text)
  {
    AcceptedTextMatches(pattern, text);
    if Matches(Compile(pattern), text) {
      assert Compile(pattern)[0..] == Compile(pattern) && text[0..] == text;
      VerdictIsComplete(pattern, text, START);
    }
  }

  /** The pattern that is misread: the text up to its first star, and a star. */
  lemma {:induction false} MisreadFrom(text: seq<Byte>, k: nat, i: nat)
    requires k < |text| - 1 && text[k] == STAR && i <= k + 1
    ensures !Verdict(text[..k + 1], text, Walk(i, i, None, 0))
    decreases k + 1 - i
  {
    if i <= k {
      MisreadFrom(text, k, i + 1);
    }
  }

  lemma {:induction false} MisreadMatches(text: seq<Byte>, k: nat, i: nat)
    requires k < |text| && text[k] == STAR && i <= k
    requires forall j :: 0 <= j < k ==> text[j] != STAR
    ensures Matches(Compile(text[..k + 1])[i..], text[i..])
    decreases k - i
  {
    var tokens := Compile(text[..k + 1]);
    if i == k {
      MatchesNothing([]);
      assert tokens[k + 1..] == [] && text[|text|..] == [];
      StarAhead(text[..k + 1], text, k, k);
    } else {
      MisreadMatches(text, k, i + 1);
      assert tokens[i..][1..] == tokens[i + 1..] && text[i..][1..] == text[i + 1..];
      MatchesLiteral(tokens[i..], text[i..]);
    }
  }

  /**
   A text is judged correctly for every pattern exactly when no star stands before its last byte.
   */
  lemma ExactTexts(text: seq<Byte>)
    ensures (forall pattern :: Accepts(pattern, text) <==> Matches(Compile(pattern), text))
            <==> StarOnlyLast(text)
  {
    if StarOnlyLast(text) {
      forall pattern ensures Accepts(pattern, text) <==> Matches(Compile(pattern), text) {
        AcceptsExactly(pattern, text);
      }
    } else {
      var k := FirstStar(text, 0);
      MisreadFrom(text, k, 0);
      MisreadMatches(text, k, 0);
      assert Compile(text[..k + 1])[0..] == Compile(text[..k + 1]) && text[0..] == text;
      assert !Accepts(text[..k + 1], text);
    }
  }

  function FirstStar(text: seq<Byte>, from: nat): (k: nat)
    requires exists i :: from <= i < |text| && text[i] == STAR
    ensures from <= k < |text| && text[k] == STAR
    ensures forall i :: from <= i < k ==> text[i] != STAR
    decreases |text| - from
  {
    if text[from] == STAR then from else FirstStar(text, from + 1)
  }

  // ---------- the filter ----------

  datatype ContainerFilter = ContainerFilter(included: seq<seq<Byte>>, excluded: seq<seq<Byte>>)

  predicate SomeAccepts(patterns: seq<seq<Byte>>, name: seq<Byte>) {
    exists i :: 0 <= i < |patterns| && Accepts(patterns[i], name)
  }

  predicate ShouldMonitor(filter: ContainerFilter, name: seq<Byte>) {
    if SomeAccepts(filter.excluded, name) then false
    else if filter.included == [] then true
    else SomeAccepts(filter.included, name)
  }

  ghost predicate SomeMatches(patterns: seq<seq<Byte>>, name: seq<Byte>) {
    exists i :: 0 <= i < |patterns| && Matches(Compile(patterns[i]), name)
  }

  lemma SomeAcceptsIffMatches(patterns: seq<seq<Byte>>, name: seq<Byte>)
    requires StarOnlyLast(name)
    ensures SomeAccepts(patterns, name) <==> SomeMatches(patterns, name)
  {
    forall i | 0 <= i < |patterns|
      ensures Accepts(patterns[i], name) <==> Matches(Compile(patterns[i]), name)
    {
      AcceptsExactly(patterns[i], name);
    }
  }

  /** Exclusion wins, an empty include list admits the rest, and a pattern means what it says. */
  lemma MonitoredExactly(filter: ContainerFilter, name: seq<Byte>)
    requires StarOnlyLast(name)
    ensures ShouldMonitor(filter, name) <==>
            && !SomeMatches(filter.excluded, name)
            && (filter.included == [] || SomeMatches(filter.included, name))
  {
    SomeAcceptsIffMatches(filter.excluded, name);
    SomeAcceptsIffMatches(filter.included, name);
  }
}
