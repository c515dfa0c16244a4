/** `correct_symptom` and the correction loop of `predict`: each token is matched against the
    symptom vocabulary with `process.extractOne`, and the best match is kept only when its
    score is strictly greater than 80. */
module Corrector {
  import opened Wrappers
  import SymptomNames

  /** A similarity score as `process.extractOne` reports it: from 0 to 100. */
  type Score = r: real | 0.0 <= r <= 100.0

  /** The similarity function `process.extractOne` ranks the choices by (rapidfuzz's default
      scorer, whose internals are not part of this model). */
  type Scorer = (string, string) -> Score

  /** `correct_symptom` accepts a match only when its score is strictly greater than this. */
  const Threshold: real := 80.0

  /** The `(match, score, index)` triple `process.extractOne` returns. */
  datatype Match = Match(choice: string, score: Score, index: nat)

  /** The position of the best-scoring choice; on a tie the earliest one wins, since a later
      choice replaces the best so far only with a strictly greater score. */
  function BestIndex(query: string, choices: seq<string>, scorer: Scorer): (k: nat)
    requires choices != []
    ensures k < |choices|
  {
    if |choices| == 1 then 0
    else
      var last := |choices| - 1;
      var k := BestIndex(query, choices[..last], scorer);
      if scorer(query, choices[last]) > scorer(query, choices[k]) then last else k
  }

  /** `BestIndex` picks a highest score, and every earlier choice scores strictly less. */
  lemma {:induction false} BestIndexIsFirstMaximum(query: string, choices: seq<string>, scorer: Scorer)
    requires choices != []
    ensures var k := BestIndex(query, choices, scorer);
      && (forall j | 0 <= j < |choices| :: scorer(query, choices[j]) <= scorer(query, choices[k]))
      && (forall j | 0 <= j < k :: scorer(query, choices[j]) < scorer(query, choices[k]))
  {
    if |choices| > 1 {
      var last := |choices| - 1;
      BestIndexIsFirstMaximum(query, choices[..last], scorer);
      assert forall j | 0 <= j < last :: choices[..last][j] == choices[j];
    }
  }

  /** `process.extractOne(query, choices)`: the first best-scoring choice, its score and its
      position. */
  function ExtractOne(query: string, choices: seq<string>, scorer: Scorer): (m: Match)
    requires choices != []
    ensures m.index < |choices| && m.choice == choices[m.index]
    ensures m.score == scorer(query, m.choice)
  {
    var k := BestIndex(query, choices, scorer);
    Match(choices[k], scorer(query, choices[k]), k)
  }

  /** The match `process.extractOne` returns scores at least as high as every choice, and
      strictly higher than every earlier one. */
  lemma ExtractOneIsFirstBest(query: string, choices: seq<string>, scorer: Scorer)
    requires choices != []
    ensures var m := ExtractOne(query, choices, scorer);
      && (forall c | c in choices :: scorer(query, c) <= m.score)
      && (forall j | 0 <= j < m.index :: scorer(query, choices[j]) < m.score)
  {
    BestIndexIsFirstMaximum(query, choices, scorer);
  }

  /** `correct_symptom(symptom, valid_symptoms)`: the best match when its score exceeds the
      threshold, `None` otherwise. */
  function CorrectSymptom(symptom: string, validSymptoms: seq<string>, scorer: Scorer)
    : (r: Option<string>)
    requires validSymptoms != []
    ensures r.Some? ==> r == Some(ExtractOne(symptom, validSymptoms, scorer).choice)
  {
    var m := ExtractOne(symptom, validSymptoms, scorer);
    if m.score > Threshold then Some(m.choice) else None
  }

  /** A symptom is corrected exactly when some candidate scores above the threshold; the
      correction is then a candidate, scores above the threshold and scores highest. */
  lemma CorrectSymptomIsBestAboveThreshold(
    symptom: string, validSymptoms: seq<string>, scorer: Scorer)
    requires validSymptoms != []
    ensures var r := CorrectSymptom(symptom, validSymptoms, scorer);
      && (r.Some? <==> exists c | c in validSymptoms :: scorer(symptom, c) > Threshold)
      && (r.Some? ==> r.value in validSymptoms && scorer(symptom, r.value) > Threshold)
      && (r.Some? ==> forall c | c in validSymptoms :: scorer(symptom, c) <= scorer(symptom, r.value))
  {
    ExtractOneIsFirstBest(symptom, validSymptoms, scorer);
  }

  /** A best score of exactly 80 is rejected: the comparison is strict. */
  lemma ThresholdIsStrict(symptom: string, validSymptoms: seq<string>, scorer: Scorer)
    requires validSymptoms != []
    requires ExtractOne(symptom, validSymptoms, scorer).score == Threshold
    ensures CorrectSymptom(symptom, validSymptoms, scorer) == None
  {
  }

  /** A symptom spelled exactly as in the vocabulary is recognised, provided the scorer gives
      identical strings the full score; the match returned then scores 100 too. */
  lemma ExactSpellingAccepted(symptom: string, validSymptoms: seq<string>, scorer: Scorer)
    requires symptom in validSymptoms
    requires scorer(symptom, symptom) == 100.0
    ensures CorrectSymptom(symptom, validSymptoms, scorer).Some?
    ensures scorer(symptom, CorrectSymptom(symptom, validSymptoms, scorer).value) == 100.0
  {
    CorrectSymptomIsBestAboveThreshold(symptom, validSymptoms, scorer);
  }

  /** Whether `if corrected:` takes its branch: a match was returned and it is a non-empty
      string. */
  predicate Truthy(corrected: Option<string>)
  {
    corrected.Some? && corrected.value != ""
  }

  /** `corrected_symptoms` once the loop of `predict` has run over `tokens`, every token
      corrected against `validSymptoms`. */
  function CorrectAll(tokens: seq<string>, validSymptoms: seq<string>, scorer: Scorer)
    : (r: seq<string>)
    requires validSymptoms != []
    ensures |r| <= |tokens|
  {
    if tokens == [] then []
    else
      CorrectAll(tokens[..|tokens| - 1], validSymptoms, scorer)
        + Kept(tokens[|tokens| - 1], validSymptoms, scorer)
  }

  /** What one iteration of the loop appends: the correction when `if corrected:` holds. */
  function Kept(token: string, validSymptoms: seq<string>, scorer: Scorer): (r: seq<string>)
    requires validSymptoms != []
    ensures r == [] || (|r| == 1 && r[0] in validSymptoms)
    ensures r == [] <==> !Truthy(CorrectSymptom(token, validSymptoms, scorer))
    ensures r != [] ==> r == [CorrectSymptom(token, validSymptoms, scorer).value]
  {
    var corrected := CorrectSymptom(token, validSymptoms, scorer);
    if Truthy(corrected) then [corrected.value] else []
  }

  /** The corrected symptoms are all candidates, so the encoder can look each of them up. */
  lemma {:induction false} CorrectAllInVocabulary(
    tokens: seq<string>, validSymptoms: seq<string>, scorer: Scorer)
    requires validSymptoms != []
    ensures forall s | s in CorrectAll(tokens, validSymptoms, scorer) :: s in validSymptoms
  {
    if tokens != [] {
      CorrectAllInVocabulary(tokens[..|tokens| - 1], validSymptoms, scorer);
    }
  }

  /** One token contributes its accepted match, or nothing. */
  lemma CorrectAllSingle(token: string, validSymptoms: seq<string>, scorer: Scorer)
    requires validSymptoms != [] && SymptomNames.NoneEmpty(validSymptoms)
    ensures var c := CorrectSymptom(token, validSymptoms, scorer);
      CorrectAll([token], validSymptoms, scorer) == (if c.Some? then [c.value] else [])
  {
    assert [token][..0] == [];
  }

  /** Correction works token by token and keeps the input order: correcting a concatenation
      concatenates the corrections. */
  lemma {:induction false} CorrectAllAppend(
    a: seq<string>, b: seq<string>, validSymptoms: seq<string>, scorer: Scorer)
    requires validSymptoms != []
    ensures CorrectAll(a + b, validSymptoms, scorer)
      == CorrectAll(a, validSymptoms, scorer) + CorrectAll(b, validSymptoms, scorer)
  {
    if b == [] {
      assert a + b == a;
    } else {
      var n := |b| - 1;
      var front := b[..n];
      assert a + b == (a + front) + [b[n]];
      assert b == front + [b[n]];
      CorrectAllAppend(a, front, validSymptoms, scorer);
      CorrectAllSnoc(a + front, b[n], validSymptoms, scorer);
      CorrectAllSnoc(front, b[n], validSymptoms, scorer);
      var kept := Kept(b[n], validSymptoms, scorer);
      var ca := CorrectAll(a, validSymptoms, scorer);
      var cb := CorrectAll(front, validSymptoms, scorer);
      assert (ca + cb) + kept == ca + (cb + kept);
    }
  }

  /** One more token appends what that token keeps. */
  lemma CorrectAllSnoc(tokens: seq<string>, token: string, validSymptoms: seq<string>, scorer: Scorer)
    requires validSymptoms != []
    ensures CorrectAll(tokens + [token], validSymptoms, scorer)
      == CorrectAll(tokens, validSymptoms, scorer) + Kept(token, validSymptoms, scorer)
  {
    assert (tokens + [token])[..|tokens|] == tokens;
  }

  /** No symptom is recognised exactly when no token has a candidate scoring above the
      threshold. */
  lemma {:induction false} CorrectAllEmpty(
    tokens: seq<string>, validSymptoms: seq<string>, scorer: Scorer)
    requires validSymptoms != [] && SymptomNames.NoneEmpty(validSymptoms)
    ensures CorrectAll(tokens, validSymptoms, scorer) == []
      <==> forall i | 0 <= i < |tokens| :: CorrectSymptom(tokens[i], validSymptoms, scorer).None?
  {
    if tokens != [] {
      var n := |tokens| - 1;
      CorrectAllEmpty(tokens[..n], validSymptoms, scorer);
      KeptNothing(tokens[n], validSymptoms, scorer);
      AllRejectedSnoc(tokens, validSymptoms, scorer);
    }
  }

  /** Every token is rejected exactly when every token but the last is, and the last is too. */
  lemma AllRejectedSnoc(tokens: seq<string>, validSymptoms: seq<string>, scorer: Scorer)
    requires tokens != [] && validSymptoms != []
    ensures var n := |tokens| - 1;
      (forall i | 0 <= i < |tokens| :: CorrectSymptom(tokens[i], validSymptoms, scorer).None?)
      <==> (forall i | 0 <= i < n :: CorrectSymptom(tokens[..n][i], validSymptoms, scorer).None?)
           && CorrectSymptom(tokens[n], validSymptoms, scorer).None?
  {
    var n := |tokens| - 1;
    assert forall i | 0 <= i < n :: tokens[..n][i] == tokens[i];
  }

  /** With no empty name, a token keeps nothing exactly when its correction is rejected. */
  lemma KeptNothing(token: string, validSymptoms: seq<string>, scorer: Scorer)
    requires validSymptoms != [] && SymptomNames.NoneEmpty(validSymptoms)
    ensures Kept(token, validSymptoms, scorer) == [] <==> CorrectSymptom(token, validSymptoms, scorer).None?
  {
  }
}
