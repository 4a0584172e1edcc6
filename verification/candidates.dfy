/** Scoring the candidates of a class and the ordered argmin that picks the
    winner: seeded with the baseline key and `Number.MAX_VALUE`, replacing
    the running minimum only on a strictly smaller score. */
module CandidateSelection {
  import opened Fonts
  import opened PageEval

  /** One `[key, value]` pair of the metric object. */
  datatype Entry = Entry(family: Family, score: int)

  /** One iteration of the selection loop. */
  function MinStep(acc: Entry, e: Entry): Entry {
    if e.score < acc.score then e else acc
  }

  /** The selection loop over the entries, in order. */
  function Scan(entries: seq<Entry>, acc: Entry): Entry
    decreases |entries|
  {
    if |entries| == 0 then acc else Scan(entries[1..], MinStep(acc, entries[0]))
  }

  /** Reference definition of the winner: entry `j` has a score below
      `bound`, no entry scores less, and every earlier entry scores more. */
  ghost predicate FirstMinBelow(entries: seq<Entry>, bound: int, j: int) {
    && 0 <= j < |entries|
    && entries[j].score < bound
    && (forall k :: 0 <= k < |entries| ==> entries[j].score <= entries[k].score)
    && (forall k :: 0 <= k < j ==> entries[j].score < entries[k].score)
  }

  /** The scan returns the seed when nothing beats it, and otherwise the
      first entry of minimal score. */
  lemma {:induction false} ScanPicksFirstMinimum(entries: seq<Entry>, acc: Entry)
    ensures
      || (Scan(entries, acc) == acc && forall k :: 0 <= k < |entries| ==> acc.score <= entries[k].score)
      || (exists j :: FirstMinBelow(entries, acc.score, j) && Scan(entries, acc) == entries[j])
    decreases |entries|
  {
    if |entries| > 0 {
      var e0 := entries[0];
      var rest := entries[1..];
      var acc' := MinStep(acc, e0);
      ScanPicksFirstMinimum(rest, acc');
      assert Scan(entries, acc) == Scan(rest, acc');
      if Scan(rest, acc') == acc' && forall k :: 0 <= k < |rest| ==> acc'.score <= rest[k].score {
        if e0.score < acc.score {
          assert forall k :: 0 <= k < |entries| ==> e0.score <= entries[k].score by {
            forall k | 0 <= k < |entries| ensures e0.score <= entries[k].score {
              if k > 0 { assert entries[k] == rest[k - 1]; }
            }
          }
          assert FirstMinBelow(entries, acc.score, 0);
        } else {
          assert forall k :: 0 <= k < |entries| ==> acc.score <= entries[k].score by {
            forall k | 0 <= k < |entries| ensures acc.score <= entries[k].score {
              if k > 0 { assert entries[k] == rest[k - 1]; }
            }
          }
        }
      } else {
        var j' :| FirstMinBelow(rest, acc'.score, j') && Scan(rest, acc') == rest[j'];
        var w := rest[j'];
        assert w.score < e0.score;
        forall k | 0 <= k < |entries| ensures w.score <= entries[k].score {
          if k > 0 { assert entries[k] == rest[k - 1]; }
        }
        forall k | 0 <= k < j' + 1 ensures w.score < entries[k].score {
          if k > 0 { assert entries[k] == rest[k - 1]; }
        }
        assert FirstMinBelow(entries, acc.score, j' + 1);
      }
    }
  }

  /** The first minimum is unique, so the characterisation above fixes the
      winner. */
  lemma FirstMinUnique(entries: seq<Entry>, bound: int, j1: int, j2: int)
    requires FirstMinBelow(entries, bound, j1) && FirstMinBelow(entries, bound, j2)
    ensures j1 == j2
  {
  }

  /** The scan returns the seed or one of the entries, never anything else. */
  lemma {:induction false} ScanReturnsSeedOrEntry(entries: seq<Entry>, acc: Entry)
    ensures Scan(entries, acc) == acc || Scan(entries, acc) in entries
    decreases |entries|
  {
    if |entries| > 0 {
      ScanReturnsSeedOrEntry(entries[1..], MinStep(acc, entries[0]));
    }
  }

  /** Metric of one candidate with the default budget of 500 words. */
  function CandidateScore(k: Kernel, f: Family, s: Sample): int {
    EvalPageFonts(k, f, s, DefaultBudget).metric
  }

  /** The metric object of a class: its candidates in declared order, each
      evaluated on the same sample. */
  function ScoreClass(k: Kernel, c: FontClass, s: Sample): seq<Entry> {
    var cs := Candidates(c);
    seq(|cs|, i requires 0 <= i < |cs| => Entry(cs[i], CandidateScore(k, cs[i], s)))
  }

  /** `minKey`/`minValue` after the selection loop of a class. */
  function Winner(k: Kernel, c: FontClass, s: Sample): (w: Entry)
    ensures InClass(c, w.family)
    ensures w.score <= MaxValue
  {
    var entries := ScoreClass(k, c, s);
    var seed := Entry(Baseline(c), MaxValue);
    ScanReturnsSeedOrEntry(entries, seed);
    ScanPicksFirstMinimum(entries, seed);
    Scan(entries, seed)
  }

  /** The winner of a class, in terms of its candidates' scores: either no
      score is below `MaxValue` and the baseline key survives, or the winner
      is the first candidate in declared order with the minimal score. */
  lemma WinnerIsFirstMinimum(k: Kernel, c: FontClass, s: Sample)
    ensures var w := Winner(k, c, s);
      || ((forall f :: f in Candidates(c) ==> CandidateScore(k, f, s) >= MaxValue)
          && w == Entry(Baseline(c), MaxValue))
      || (exists j :: FirstMinBelow(ScoreClass(k, c, s), MaxValue, j) && w == ScoreClass(k, c, s)[j])
    // Any first minimum below `MaxValue` is the winner: the scores fix it.
    ensures forall j :: FirstMinBelow(ScoreClass(k, c, s), MaxValue, j) ==> Winner(k, c, s) == ScoreClass(k, c, s)[j]
  {
    var entries := ScoreClass(k, c, s);
    var seed := Entry(Baseline(c), MaxValue);
    ScanPicksFirstMinimum(entries, seed);
    if Scan(entries, seed) == seed && forall i :: 0 <= i < |entries| ==> MaxValue <= entries[i].score {
      forall f | f in Candidates(c) ensures CandidateScore(k, f, s) >= MaxValue {
        var i :| 0 <= i < |Candidates(c)| && Candidates(c)[i] == f;
        assert entries[i].score == CandidateScore(k, f, s);
      }
    }
    forall j | FirstMinBelow(entries, MaxValue, j) ensures Winner(k, c, s) == entries[j] {
      if exists j' :: FirstMinBelow(entries, MaxValue, j') && Scan(entries, seed) == entries[j'] {
        var j' :| FirstMinBelow(entries, MaxValue, j') && Scan(entries, seed) == entries[j'];
        FirstMinUnique(entries, MaxValue, j, j');
      }
    }
  }

  /** No candidate of the class scores strictly below the winner. */
  lemma WinnerIsMinimal(k: Kernel, c: FontClass, s: Sample, f: Family)
    requires f in Candidates(c)
    ensures Winner(k, c, s).score <= CandidateScore(k, f, s)
  {
    var entries := ScoreClass(k, c, s);
    var i :| 0 <= i < |Candidates(c)| && Candidates(c)[i] == f;
    assert entries[i].score == CandidateScore(k, f, s);
    ScanPicksFirstMinimum(entries, Entry(Baseline(c), MaxValue));
  }

  /** The sans rule, tie included: Carlito wins iff its score is below
      `MaxValue` and no greater than NimbusSans's; equal scores go to
      Carlito because it is declared first. */
  lemma SansWinnerRule(k: Kernel, s: Sample)
    ensures Winner(k, Sans, s).family == Carlito
            <==> CandidateScore(k, Carlito, s) < MaxValue
                 && CandidateScore(k, Carlito, s) <= CandidateScore(k, NimbusSans, s)
  {
    var entries := ScoreClass(k, Sans, s);
    var seed := Entry(NimbusSans, MaxValue);
    assert entries == [Entry(Carlito, CandidateScore(k, Carlito, s)), Entry(NimbusSans, CandidateScore(k, NimbusSans, s))];
    var a1 := MinStep(seed, entries[0]);
    var a2 := MinStep(a1, entries[1]);
    assert Scan(entries, seed) == Scan(entries[1..], a1);
    assert Scan(entries[1..], a1) == Scan(entries[2..], a2);
    assert entries[2..] == [];
  }

  /** The serif rule: the baseline NimbusRomNo9L keeps the slot iff no serif
      score is below `MaxValue`, or its own score is below `MaxValue` and
      strictly below each of the three earlier-declared candidates. */
  lemma SerifBaselineRule(k: Kernel, s: Sample)
    ensures var sc := CandidateScore(k, Century, s);
            var sp := CandidateScore(k, Palatino, s);
            var sg := CandidateScore(k, Garamond, s);
            var sn := CandidateScore(k, NimbusRomNo9L, s);
            Winner(k, Serif, s).family == NimbusRomNo9L
            <==> (sc >= MaxValue && sp >= MaxValue && sg >= MaxValue && sn >= MaxValue)
                 || (sn < MaxValue && sn < sc && sn < sp && sn < sg)
  {
    var entries := ScoreClass(k, Serif, s);
    assert entries == [Entry(Century, CandidateScore(k, Century, s)), Entry(Palatino, CandidateScore(k, Palatino, s)),
                       Entry(Garamond, CandidateScore(k, Garamond, s)), Entry(NimbusRomNo9L, CandidateScore(k, NimbusRomNo9L, s))];
    var seed := Entry(NimbusRomNo9L, MaxValue);
    var a1 := MinStep(seed, entries[0]);
    var a2 := MinStep(a1, entries[1]);
    var a3 := MinStep(a2, entries[2]);
    var a4 := MinStep(a3, entries[3]);
    assert Scan(entries, seed) == Scan(entries[1..], a1);
    assert Scan(entries[1..], a1) == Scan(entries[2..], a2);
    assert Scan(entries[2..], a2) == Scan(entries[3..], a3);
    assert Scan(entries[3..], a3) == Scan(entries[4..], a4);
    assert entries[4..] == [];
  }
}
