/**
  The set sequencer: start from the slowest track, then repeatedly pick,
  among the tracks at most 7.5% faster than the current one, the most
  harmonically compatible one (smaller tempo increases breaking ties),
  falling back to the slowest remaining track when none is compatible.
 */
module Sequencer {
  import opened Wrappers
  import opened Camelot
  import opened Tracks

  /** The tempo window: a candidate may be at most 7.5% faster. */
  const WindowFactor: real := 1.075

  /** Added to the width of the window in the bonus's divisor. */
  const Epsilon: real := 0.01

  // ---------------------------------------------------------------------
  // List primitives with the semantics of the built-ins the loop uses.

  /** Position of the first occurrence of `x`. */
  function IndexOf<T(==)>(s: seq<T>, x: T): (i: nat)
    requires x in s
    ensures i < |s| && s[i] == x
    ensures forall j :: 0 <= j < i ==> s[j] != x
  {
    if s[0] == x then 0 else 1 + IndexOf(s[1..], x)
  }

  /** `list.remove`: drop the first occurrence of `x`, keep the order of the rest. */
  function RemoveFirst<T(==)>(s: seq<T>, x: T): (r: seq<T>)
    requires x in s
    ensures |r| == |s| - 1
    ensures multiset(r) + multiset{x} == multiset(s)
    ensures forall y :: y in r ==> y in s
    ensures forall j :: 0 <= j < IndexOf(s, x) ==> r[j] == s[j]
    ensures forall j :: IndexOf(s, x) <= j < |r| ==> r[j] == s[j + 1]
  {
    var i := IndexOf(s, x);
    assert s == s[..i] + [s[i]] + s[i + 1..];
    s[..i] + s[i + 1..]
  }

  /** Position `i` holds a slowest track, and no earlier track is as slow. */
  predicate IsLowestBpm(s: seq<Track>, i: int) {
    && 0 <= i < |s|
    && (forall j :: 0 <= j < |s| ==> s[i].bpm <= s[j].bpm)
    && (forall j :: 0 <= j < i ==> s[i].bpm < s[j].bpm)
  }

  /** `min(tracks, key=bpm)`: the first track of least tempo. */
  function MinBpmIndex(ts: seq<Track>): (i: nat)
    requires ts != []
    ensures IsLowestBpm(ts, i)
  {
    if |ts| == 1 then 0
    else
      var k := 1 + MinBpmIndex(ts[1..]);
      if ts[0].bpm <= ts[k].bpm then 0 else k
  }

  /** The slowest track is found at its first occurrence. */
  lemma LowestIsFirstOccurrence(s: seq<Track>, i: int)
    requires IsLowestBpm(s, i)
    ensures IndexOf(s, s[i]) == i
  {
  }

  // ---------------------------------------------------------------------
  // One step: the tempo window, the score of a candidate, the choice.

  /** A tempo no slower than the current one and at most 7.5% faster. */
  predicate InWindow(current: real, bpm: real) {
    current <= bpm <= current * WindowFactor
  }

  /** The available tracks inside the window, in their order. */
  function Window(avail: seq<Track>, current: real): (w: seq<Track>)
    ensures |w| <= |avail|
    ensures forall t :: t in w <==> t in avail && InWindow(current, t.bpm)
  {
    if avail == [] then []
    else (if InWindow(current, avail[0].bpm) then [avail[0]] else []) + Window(avail[1..], current)
  }

  /**
    The tie-break: 1 for a candidate at the current tempo, falling
    linearly as the increase approaches the top of the window, and never
    reaching 0 there.
   */
  function Bonus(current: real, bpm: real): (b: real)
    requires InWindow(current, bpm)
    ensures 0.0 < b <= 1.0
    ensures bpm == current ==> b == 1.0
  {
    var span := current * WindowFactor - current + Epsilon;
    assert span > bpm - current >= 0.0;
    1.0 - (bpm - current) / span
  }

  /** Among tracks in the window, a smaller tempo increase earns a larger bonus. */
  lemma BonusFavoursSmallerIncrease(current: real, bpm1: real, bpm2: real)
    requires InWindow(current, bpm1) && InWindow(current, bpm2)
    ensures bpm1 < bpm2 <==> Bonus(current, bpm1) > Bonus(current, bpm2)
  {
    var span := current * WindowFactor - current + Epsilon;
    assert span > 0.0;
    if bpm1 < bpm2 {
      DivMonotone(bpm1 - current, bpm2 - current, span);
    } else if bpm2 < bpm1 {
      DivMonotone(bpm2 - current, bpm1 - current, span);
    }
  }

  lemma DivMonotone(x: real, y: real, d: real)
    requires d > 0.0 && x < y
    ensures x / d < y / d
  {
    assert x / d * d == x && y / d * d == y;
  }

  /**
    Scoring is only attempted when the window is not empty; then the
    current code and every candidate's code must parse.
   */
  predicate Readable(current: Track, window: seq<Track>) {
    window == [] || (Parses(current.camelotKey) && forall t :: t in window ==> Parses(t.camelotKey))
  }

  /** A candidate that makes it into the scored list. */
  predicate Admissible(current: Track, cand: Track) {
    && InWindow(current.bpm, cand.bpm)
    && Parses(current.camelotKey) && Parses(cand.camelotKey)
    && HarmonicScore(current.camelotKey, cand.camelotKey) > 0
  }

  predicate NoneAdmissible(current: Track, avail: seq<Track>) {
    forall t :: t in avail ==> !Admissible(current, t)
  }

  /** The score of a candidate: its harmonic score plus the tempo bonus. */
  function FinalScore(current: Track, cand: Track): (r: real)
    requires Admissible(current, cand)
    ensures var h := HarmonicScore(current.camelotKey, cand.camelotKey) as real;
      h < r <= h + 1.0
    ensures 1.0 < r <= 4.0
  {
    HarmonicScore(current.camelotKey, cand.camelotKey) as real + Bonus(current.bpm, cand.bpm)
  }

  /** The bonus only separates equal harmonic scores: a better harmonic score always wins. */
  lemma HigherHarmonicWins(current: Track, a: Track, b: Track)
    requires Admissible(current, a) && Admissible(current, b)
    requires HarmonicScore(current.camelotKey, a.camelotKey) > HarmonicScore(current.camelotKey, b.camelotKey)
    ensures FinalScore(current, a) > FinalScore(current, b)
  {
  }

  /** A scored candidate, as the pair the loop collects. */
  datatype Candidate = Candidate(score: real, track: Track)

  /** The score of a candidate, or None for a candidate the loop does not keep. */
  function Scorer(current: Track): Track -> Option<real> {
    t => if Admissible(current, t) then Some(FinalScore(current, t)) else None
  }

  // The list reasoning below is stated for any evaluation `eval`, so that
  // it does not depend on how a candidate is scored.

  /** The tracks `eval` scores, each with its score, in list order. */
  function Collect(eval: Track -> Option<real>, s: seq<Track>): (c: seq<Candidate>)
    ensures |c| <= |s|
  {
    if s == [] then []
    else (if eval(s[0]).Some? then [Candidate(eval(s[0]).value, s[0])] else []) + Collect(eval, s[1..])
  }

  /** The collected list holds exactly the scored tracks, each with its own score. */
  lemma {:induction false} CollectMembers(eval: Track -> Option<real>, s: seq<Track>)
    ensures forall c :: c in Collect(eval, s) ==> c.track in s && eval(c.track) == Some(c.score)
    ensures forall t :: t in s && eval(t).Some? ==> Candidate(eval(t).value, t) in Collect(eval, s)
  {
    if s != [] {
      CollectMembers(eval, s[1..]);
      assert forall t :: t in s <==> t == s[0] || t in s[1..];
    }
  }

  lemma CollectSingle(eval: Track -> Option<real>, t: Track)
    ensures Collect(eval, [t]) == if eval(t).Some? then [Candidate(eval(t).value, t)] else []
  {
    assert [t][1..] == [];
  }

  /** Collecting distributes over concatenation: the order of the list is kept. */
  lemma {:induction false} CollectAppend(eval: Track -> Option<real>, a: seq<Track>, b: seq<Track>)
    ensures Collect(eval, a + b) == Collect(eval, a) + Collect(eval, b)
  {
    if a == [] {
      assert a + b == b;
    } else {
      assert (a + b)[0] == a[0] && (a + b)[1..] == a[1..] + b;
      CollectAppend(eval, a[1..], b);
      var h := Collect(eval, [a[0]]);
      assert h + (Collect(eval, a[1..]) + Collect(eval, b)) == (h + Collect(eval, a[1..])) + Collect(eval, b);
    }
  }

  /** Filtering by the tempo window first changes nothing for an evaluation that only scores tracks inside it. */
  lemma {:induction false} CollectWindow(eval: Track -> Option<real>, avail: seq<Track>, current: real)
    requires forall t :: eval(t).Some? ==> InWindow(current, t.bpm)
    ensures Collect(eval, Window(avail, current)) == Collect(eval, avail)
  {
    if avail != [] {
      var head := if InWindow(current, avail[0].bpm) then [avail[0]] else [];
      CollectAppend(eval, head, Window(avail[1..], current));
      CollectWindow(eval, avail[1..], current);
    }
  }

  /**
    The sort by descending score followed by taking the head: Python's
    sort is stable, so this is the first candidate of maximal score.
   */
  function FirstMax(s: seq<Candidate>): (i: nat)
    requires s != []
    ensures i < |s|
    ensures forall j :: 0 <= j < |s| ==> s[j].score <= s[i].score
    ensures forall j :: 0 <= j < i ==> s[j].score < s[i].score
  {
    if |s| == 1 then 0
    else
      var k := 1 + FirstMax(s[1..]);
      if s[0].score >= s[k].score then 0 else k
  }

  /**
    Position `i` holds a first maximum under `eval`: it is scored, no
    scored track scores higher, and every scored track before it scores lower.
   */
  predicate IsFirstBest(eval: Track -> Option<real>, s: seq<Track>, i: int) {
    && 0 <= i < |s|
    && eval(s[i]).Some?
    && (forall j :: 0 <= j < |s| && eval(s[j]).Some? ==> eval(s[j]).value <= eval(s[i]).value)
    && (forall j :: 0 <= j < i && eval(s[j]).Some? ==> eval(s[j]).value < eval(s[i]).value)
  }

  predicate NoneScored(eval: Track -> Option<real>, s: seq<Track>) {
    forall t :: t in s ==> eval(t).None?
  }

  lemma BestShift(eval: Track -> Option<real>, s: seq<Track>, i: int)
    requires s != [] && IsFirstBest(eval, s[1..], i)
    requires eval(s[0]).Some? ==> eval(s[0]).value < eval(s[1..][i]).value
    ensures IsFirstBest(eval, s, i + 1)
  {
    assert forall j :: 0 < j < |s| ==> s[j] == s[1..][j - 1];
  }

  lemma BestHead(eval: Track -> Option<real>, s: seq<Track>, i: int)
    requires s != [] && eval(s[0]).Some?
    requires IsFirstBest(eval, s[1..], i) && eval(s[0]).value >= eval(s[1..][i]).value
    ensures IsFirstBest(eval, s, 0)
  {
    assert forall j :: 0 < j < |s| ==> s[j] == s[1..][j - 1];
  }

  lemma BestAlone(eval: Track -> Option<real>, s: seq<Track>)
    requires s != [] && eval(s[0]).Some? && NoneScored(eval, s[1..])
    ensures IsFirstBest(eval, s, 0)
  {
    assert forall j :: 0 < j < |s| ==> s[j] in s[1..];
  }

  /**
    The collected list is empty exactly when `eval` scores nothing, and
    otherwise its first maximum is a first best track of the list.
   */
  lemma {:induction false} CollectFindsBest(eval: Track -> Option<real>, s: seq<Track>)
    ensures var c := Collect(eval, s);
      && (c == [] <==> NoneScored(eval, s))
      && (c != [] ==> exists i :: IsFirstBest(eval, s, i) && s[i] == c[FirstMax(c)].track)
  {
    if s != [] {
      var rest := s[1..];
      CollectFindsBest(eval, rest);
      CollectMembers(eval, rest);
      var c := Collect(eval, s);
      var c' := Collect(eval, rest);
      assert forall t :: t in s <==> t == s[0] || t in rest;
      if c' != [] {
        var i' :| IsFirstBest(eval, rest, i') && rest[i'] == c'[FirstMax(c')].track;
        assert c'[FirstMax(c')] in c';
        if eval(s[0]).None? {
          assert c == c';
          BestShift(eval, s, i');
          assert s[i' + 1] == c[FirstMax(c)].track;
        } else {
          assert c == [Candidate(eval(s[0]).value, s[0])] + c';
          assert c[1..] == c';
          if c[0].score >= c'[FirstMax(c')].score {
            BestHead(eval, s, i');
            assert FirstMax(c) == 0;
            assert s[0] == c[FirstMax(c)].track;
          } else {
            BestShift(eval, s, i');
            assert FirstMax(c) == 1 + FirstMax(c');
            assert s[i' + 1] == c[FirstMax(c)].track;
          }
        }
      } else if eval(s[0]).Some? {
        BestAlone(eval, s);
        assert c == [Candidate(eval(s[0]).value, s[0])];
        assert s[0] == c[FirstMax(c)].track;
      }
    }
  }

  lemma BestAtFirstOccurrence(eval: Track -> Option<real>, s: seq<Track>, i: int)
    requires IsFirstBest(eval, s, i)
    ensures IsFirstBest(eval, s, IndexOf(s, s[i]))
  {
  }

  /** The compatible candidates of the window, each with its final score, in window order. */
  function ScoredCandidates(current: Track, window: seq<Track>): (s: seq<Candidate>)
    ensures |s| <= |window|
  {
    Collect(Scorer(current), window)
  }

  /**
    The scoring step can run: the window is empty, or every code it
    reads parses.
   */
  predicate StepReadable(current: Track, avail: seq<Track>) {
    Readable(current, Window(avail, current.bpm))
  }

  /** The track chosen after `current`. */
  function NextChoice(current: Track, avail: seq<Track>): (n: Track)
    requires avail != []
    ensures n in avail
  {
    var scored := ScoredCandidates(current, Window(avail, current.bpm));
    CollectMembers(Scorer(current), Window(avail, current.bpm));
    if scored != [] then scored[FirstMax(scored)].track
    else avail[MinBpmIndex(avail)]
  }

  /**
    Position `i` holds the greedy choice: it is compatible, no compatible
    track scores higher, and every compatible track before it scores lower.
   */
  predicate IsBestCandidate(current: Track, avail: seq<Track>, i: int) {
    && 0 <= i < |avail|
    && Admissible(current, avail[i])
    && (forall j :: 0 <= j < |avail| && Admissible(current, avail[j]) ==>
          FinalScore(current, avail[j]) <= FinalScore(current, avail[i]))
    && (forall j :: 0 <= j < i && Admissible(current, avail[j]) ==>
          FinalScore(current, avail[j]) < FinalScore(current, avail[i]))
  }

  lemma ScorerBest(current: Track, avail: seq<Track>, i: int)
    requires IsFirstBest(Scorer(current), avail, i)
    ensures IsBestCandidate(current, avail, i)
  {
    var eval := Scorer(current);
    assert forall t :: eval(t).Some? <==> Admissible(current, t);
    assert forall t :: eval(t).Some? ==> eval(t).value == FinalScore(current, t);
  }

  /**
    The choice rule: when some track is compatible, the chosen one is the
    first of the highest final score; otherwise it is the first slowest track.
   */
  lemma NextChoiceSpec(current: Track, avail: seq<Track>)
    requires avail != []
    ensures var n := NextChoice(current, avail);
      if NoneAdmissible(current, avail) then IsLowestBpm(avail, IndexOf(avail, n))
      else IsBestCandidate(current, avail, IndexOf(avail, n))
  {
    var eval := Scorer(current);
    assert forall t :: eval(t).Some? <==> Admissible(current, t);
    CollectWindow(eval, avail, current.bpm);
    CollectFindsBest(eval, avail);
    var s := ScoredCandidates(current, Window(avail, current.bpm));
    if s == [] {
      LowestIsFirstOccurrence(avail, MinBpmIndex(avail));
    } else {
      var i :| IsFirstBest(eval, avail, i) && avail[i] == s[FirstMax(s)].track;
      BestAtFirstOccurrence(eval, avail, i);
      ScorerBest(current, avail, IndexOf(avail, avail[i]));
    }
  }

  /** A track reduced to what the choice reads: its tempo and its code. */
  function Sample(code: string, bpm: real): Track {
    Track("", "", bpm, NotText, "", code)
  }

  /**
    Example: after 8A at 100 BPM, the neighbour 9A at 104 BPM is chosen
    over 3B at 101 BPM, which is closer in tempo but scores 0.
   */
  lemma HarmonicChoiceExample()
    ensures NextChoice(Sample("8A", 100.0), [Sample("3B", 101.0), Sample("9A", 104.0)]) == Sample("9A", 104.0)
  {
    var cur, c, b := Sample("8A", 100.0), Sample("3B", 101.0), Sample("9A", 104.0);
    ExtractFormatRoundTrip(Code(8, 'A'));
    assert FormatCode(Code(8, 'A')) == "8A";
    ExtractFormatRoundTrip(Code(3, 'B'));
    assert FormatCode(Code(3, 'B')) == "3B";
    ExtractFormatRoundTrip(Code(9, 'A'));
    assert FormatCode(Code(9, 'A')) == "9A";
    assert !Admissible(cur, c) && Admissible(cur, b);
    NextChoiceSpec(cur, [c, b]);
  }

  /**
    Example of the reset: after 8A at 100 BPM, with every remaining track
    beyond the window, the slowest one is chosen whatever its code.
   */
  lemma ResetExample()
    ensures NextChoice(Sample("8A", 100.0), [Sample("8A", 150.0), Sample("1B", 120.0)]) == Sample("1B", 120.0)
  {
    var cur, d, e := Sample("8A", 100.0), Sample("8A", 150.0), Sample("1B", 120.0);
    assert !InWindow(cur.bpm, d.bpm) && !InWindow(cur.bpm, e.bpm);
    NextChoiceSpec(cur, [d, e]);
  }

  /**
    What one step promises without reference to list order: a compatible
    track of highest final score when one exists, a slowest one otherwise.
   */
  predicate GreedyStep(current: Track, next: Track, remaining: seq<Track>) {
    if NoneAdmissible(current, remaining) then
      forall t :: t in remaining ==> next.bpm <= t.bpm
    else
      && Admissible(current, next)
      && forall t :: t in remaining && Admissible(current, t) ==> FinalScore(current, t) <= FinalScore(current, next)
  }

  /** The choice rule, read without reference to list order. */
  lemma NextChoiceIsGreedy(current: Track, avail: seq<Track>)
    requires avail != []
    ensures GreedyStep(current, NextChoice(current, avail), avail)
  {
    NextChoiceSpec(current, avail);
    forall t | t in avail ensures avail[IndexOf(avail, t)] == t {
    }
  }

  /** A step's promise depends only on which tracks remain. */
  lemma GreedyStepMembers(current: Track, next: Track, a: seq<Track>, b: seq<Track>)
    requires GreedyStep(current, next, a)
    requires forall t :: t in a <==> t in b
    ensures GreedyStep(current, next, b)
  {
  }

  /** Every step of `p`, played after `current`, is greedy over the tracks not yet played. */
  predicate GreedyFrom(current: Track, p: seq<Track>)
    decreases |p|
  {
    p == [] || (GreedyStep(current, p[0], p) && GreedyFrom(p[0], p[1..]))
  }

  // ---------------------------------------------------------------------
  // The whole ordering.

  /** The result of the script: an ordered set, no input at all, or a code int() rejects. */
  datatype Outcome = Ordered(playlist: seq<Track>) | NoTracks | UnreadableKey

  function Prepend(n: Track, rest: Option<seq<Track>>): Option<seq<Track>> {
    if rest.None? then None else Some([n] + rest.value)
  }

  /** The tracks ordered greedily after `current`, or None if a step reads a code that does not parse. */
  function SequenceFrom(current: Track, avail: seq<Track>): (r: Option<seq<Track>>)
    ensures r.Some? ==> multiset(r.value) == multiset(avail)
    decreases |avail|
  {
    if avail == [] then Some([])
    else if !StepReadable(current, avail) then None
    else
      var n := NextChoice(current, avail);
      Prepend(n, SequenceFrom(n, RemoveFirst(avail, n)))
  }

  function Finish(done: seq<Track>, rest: Option<seq<Track>>): Outcome {
    if rest.None? then UnreadableKey else Ordered(done + rest.value)
  }

  lemma FinishPrepend(done: seq<Track>, n: Track, rest: Option<seq<Track>>)
    ensures Finish(done, Prepend(n, rest)) == Finish(done + [n], rest)
  {
    if rest.Some? {
      assert done + ([n] + rest.value) == (done + [n]) + rest.value;
    }
  }

  /** The ordering of the whole set: the slowest track first, then the greedy sequence after it. */
  function Order(tracks: seq<Track>): (r: Outcome)
    ensures r.NoTracks? <==> tracks == []
    ensures r.Ordered? ==> multiset(r.playlist) == multiset(tracks) && |r.playlist| == |tracks|
  {
    if tracks == [] then NoTracks
    else
      var seed := tracks[MinBpmIndex(tracks)];
      Finish([seed], SequenceFrom(seed, RemoveFirst(tracks, seed)))
  }

  /** The set opens with the first of the slowest tracks. */
  lemma SeedIsLowestBpm(tracks: seq<Track>)
    requires Order(tracks).Ordered?
    ensures var p := Order(tracks).playlist;
      p != [] && IsLowestBpm(tracks, IndexOf(tracks, p[0]))
  {
    LowestIsFirstOccurrence(tracks, MinBpmIndex(tracks));
  }

  lemma {:induction false} SequenceFromGreedy(current: Track, avail: seq<Track>)
    requires SequenceFrom(current, avail).Some?
    ensures GreedyFrom(current, SequenceFrom(current, avail).value)
    decreases |avail|
  {
    if avail != [] {
      var n := NextChoice(current, avail);
      var rest := RemoveFirst(avail, n);
      SequenceFromGreedy(n, rest);
      NextChoiceIsGreedy(current, avail);
      var p := SequenceFrom(current, avail).value;
      assert p[0] == n && p[1..] == SequenceFrom(n, rest).value;
      assert forall t :: t in p <==> t in multiset(avail);
      GreedyStepMembers(current, n, avail, p);
    }
  }

  /** The greedy promise of every step, by position. */
  lemma {:induction false} GreedyFromAt(current: Track, p: seq<Track>)
    requires GreedyFrom(current, p)
    ensures forall k :: 1 <= k < |p| ==> GreedyStep(p[k - 1], p[k], p[k..])
    decreases |p|
  {
    if p != [] {
      var q := p[1..];
      GreedyFromAt(p[0], q);
      forall k | 1 <= k < |p| ensures GreedyStep(p[k - 1], p[k], p[k..]) {
        assert p[k] == q[k - 1] && p[k..] == q[k - 1..];
        if k > 1 {
          assert p[k - 1] == q[k - 2];
        }
      }
    }
  }

  /**
    Every step of the set is greedy over the tracks still to be played:
    the next track is a compatible one of highest final score when the
    current track has a compatible successor, and a slowest one otherwise.
   */
  lemma PlaylistIsGreedy(tracks: seq<Track>)
    requires Order(tracks).Ordered?
    ensures var p := Order(tracks).playlist;
      forall k :: 1 <= k < |p| ==> GreedyStep(p[k - 1], p[k], p[k..])
  {
    var seed := tracks[MinBpmIndex(tracks)];
    var rest := RemoveFirst(tracks, seed);
    SequenceFromGreedy(seed, rest);
    var p := Order(tracks).playlist;
    assert p[1..] == SequenceFrom(seed, rest).value && p[0] == seed;
    assert GreedyFrom(seed, p[1..]);
    GreedyFromAt(seed, p[1..]);
    forall k | 1 <= k < |p| ensures GreedyStep(p[k - 1], p[k], p[k..]) {
      assert p[k] == p[1..][k - 1] && p[k..] == p[1..][k - 1..];
      if k > 1 {
        assert p[k - 1] == p[1..][k - 2];
      }
    }
  }

  predicate KeysParse(ts: seq<Track>) {
    forall t :: t in ts ==> Parses(t.camelotKey)
  }

  lemma {:induction false} ReadableSequenceSucceeds(current: Track, avail: seq<Track>)
    requires Parses(current.camelotKey) && KeysParse(avail)
    ensures SequenceFrom(current, avail).Some?
    decreases |avail|
  {
    if avail != [] {
      var n := NextChoice(current, avail);
      ReadableSequenceSucceeds(n, RemoveFirst(avail, n));
    }
  }

  /**
    When every code parses (as after the normalisation step), a non-empty
    set is always ordered.
   */
  lemma ReadableKeysAreOrdered(tracks: seq<Track>)
    requires KeysParse(tracks) && tracks != []
    ensures Order(tracks).Ordered?
  {
    var seed := tracks[MinBpmIndex(tracks)];
    ReadableSequenceSucceeds(seed, RemoveFirst(tracks, seed));
  }

  /** One turn of the scoring loop extends the scored prefix by the candidate's own entry. */
  lemma ScoreStep(current: Track, window: seq<Track>, i: int)
    requires 0 <= i < |window| && InWindow(current.bpm, window[i].bpm)
    requires Parses(current.camelotKey) && Parses(window[i].camelotKey)
    ensures var t := window[i];
      var h := HarmonicScore(current.camelotKey, t.camelotKey);
      ScoredCandidates(current, window[..i + 1]) == ScoredCandidates(current, window[..i])
        + (if h > 0 then [Candidate(h as real + Bonus(current.bpm, t.bpm), t)] else [])
  {
    assert window[..i + 1] == window[..i] + [window[i]];
    CollectAppend(Scorer(current), window[..i], [window[i]]);
    CollectSingle(Scorer(current), window[i]);
  }

  /**
    The scoring loop: every candidate of the window is scored against the
    current track, and the compatible ones are collected with their final
    score. It stops at the first code that does not parse.
   */
  method ScoreCandidates(current: Track, window: seq<Track>) returns (scored: Option<seq<Candidate>>)
    requires forall t :: t in window ==> InWindow(current.bpm, t.bpm)
    ensures scored.Some? <==> Readable(current, window)
    ensures scored.Some? ==> scored.value == ScoredCandidates(current, window)
  {
    var acc: seq<Candidate> := [];
    for i := 0 to |window|
      invariant Readable(current, window[..i])
      invariant acc == ScoredCandidates(current, window[..i])
    {
      var cand := window[i];
      if !Parses(current.camelotKey) || !Parses(cand.camelotKey) {
        return None;
      }
      ScoreStep(current, window, i);
      var score := HarmonicScore(current.camelotKey, cand.camelotKey);
      if score > 0 {
        var tieBreak := Bonus(current.bpm, cand.bpm);
        acc := acc + [Candidate(score as real + tieBreak, cand)];
      }
    }
    assert window[..|window|] == window;
    return Some(acc);
  }

  /**
    The ordering loop: open with the slowest track, then move the chosen
    track from the available list to the set until none is left.
   */
  method Sequence(tracks: seq<Track>) returns (result: Outcome)
    ensures result == Order(tracks)
    ensures result.NoTracks? <==> tracks == []
    ensures result.Ordered? ==> multiset(result.playlist) == multiset(tracks) && |result.playlist| == |tracks|
    ensures KeysParse(tracks) ==> !result.UnreadableKey?
  {
    if tracks == [] {
      return NoTracks;
    }
    if KeysParse(tracks) {
      ReadableKeysAreOrdered(tracks);
    }
    var current := tracks[MinBpmIndex(tracks)];
    var playlist := [current];
    var available := RemoveFirst(tracks, current);
    while available != []
      invariant Order(tracks) == Finish(playlist, SequenceFrom(current, available))
      decreases |available|
    {
      var window := Window(available, current.bpm);
      var scored := ScoreCandidates(current, window);
      if scored.None? {
        return UnreadableKey;
      }
      var next: Track;
      if scored.value != [] {
        next := scored.value[FirstMax(scored.value)].track;
      } else {
        next := available[MinBpmIndex(available)];
      }
      assert next == NextChoice(current, available);
      FinishPrepend(playlist, next, SequenceFrom(next, RemoveFirst(available, next)));
      current := next;
      playlist := playlist + [current];
      available := RemoveFirst(available, current);
    }
    assert playlist + [] == playlist;
    result := Ordered(playlist);
  }
}
