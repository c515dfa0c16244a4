/** The `/predict` request: tokenise the submitted text, correct each token against the
    symptom vocabulary, predict a disease from the corrected symptoms and look up its details.
    The page rendered is one of three outcomes, and always echoes the text entered. */
module Pipeline {
  import opened Wrappers
  import SymptomNames
  import Vocabulary
  import Tokeniser
  import Corrector
  import Encoder
  import ReferenceData

  /** Shown when no token was recognised as a symptom. */
  const NoValidSymptomsMessage: string := "No valid symptoms recognized. Please check your spelling."

  /** Shown when the prediction returned nothing. */
  const PredictionFailedMessage: string := "Prediction failed. Please try again later."

  /** The page `predict` renders: the text in the disease slot, the disease details when a
      disease was found, and the text the user entered. */
  datatype Page = Page(
    predictedDisease: string,
    details: Option<ReferenceData.DiseaseDetails>,
    enteredSymptoms: string)

  /** Everything a request reads besides the submitted text: the vocabulary tables, the
      similarity scorer, the classifier (absent when it could not be loaded), the reference
      tables and the list parser. */
  datatype Environment = Environment(
    dictionaries: Vocabulary.Dictionaries,
    scorer: Corrector.Scorer,
    svc: Option<Encoder.Classifier>,
    tables: ReferenceData.Tables,
    parse: ReferenceData.ListParser)

  /** The environment is usable when its vocabulary tables agree with each other. */
  ghost predicate Usable(env: Environment)
  {
    Vocabulary.Consistent(env.dictionaries)
  }

  /** The symptoms recognised in `raw`. */
  function Recognised(raw: string, env: Environment): (recognised: seq<string>)
    requires Usable(env)
  {
    Corrector.CorrectAll(Tokeniser.Tokenise(raw), env.dictionaries.validSymptoms, env.scorer)
  }

  /** Every recognised symptom has a slot in the feature vector. */
  lemma RecognisedAreKnown(raw: string, env: Environment)
    requires Usable(env)
    ensures Encoder.Known(Recognised(raw, env), env.dictionaries)
  {
    Corrector.CorrectAllInVocabulary(
      Tokeniser.Tokenise(raw), env.dictionaries.validSymptoms, env.scorer);
  }

  /** The page `predict` renders for `raw`. */
  function Respond(raw: string, env: Environment): (page: Page)
    requires Usable(env)
  {
    var corrected := Recognised(raw, env);
    if corrected == [] then Page(NoValidSymptomsMessage, None, raw)
    else
      RecognisedAreKnown(raw, env);
      var predicted := Encoder.PredictedValue(env.svc, env.dictionaries, corrected);
      if predicted.None? then Page(PredictionFailedMessage, None, raw)
      else Page(predicted.value,
                Some(ReferenceData.Details(env.tables, predicted.value, env.parse)), raw)
  }

  /** `predict()`, for the submitted text `raw`. */
  method Predict(raw: string, env: Environment) returns (page: Page)
    requires Usable(env)
    ensures page == Respond(raw, env)
  {
    var d := env.dictionaries;
    var userSymptoms := Tokeniser.Tokenise(raw);
    var correctedSymptoms: seq<string> := [];
    for i := 0 to |userSymptoms|
      invariant correctedSymptoms == Corrector.CorrectAll(userSymptoms[..i], d.validSymptoms, env.scorer)
    {
      var corrected := Corrector.CorrectSymptom(userSymptoms[i], d.validSymptoms, env.scorer);
      if Corrector.Truthy(corrected) {
        correctedSymptoms := correctedSymptoms + [corrected.value];
      }
      assert userSymptoms[..i + 1][..i] == userSymptoms[..i];
    }
    assert userSymptoms[..|userSymptoms|] == userSymptoms;
    if correctedSymptoms == [] {
      return Page(NoValidSymptomsMessage, None, raw);
    }
    RecognisedAreKnown(raw, env);
    var predictedDisease := Encoder.GetPredictedValue(env.svc, d, correctedSymptoms);
    if predictedDisease.None? {
      return Page(PredictionFailedMessage, None, raw);
    }
    var desc, pre, med, die, wrkout := ReferenceData.Helper(env.tables, predictedDisease.value, env.parse);
    page := Page(predictedDisease.value,
                 Some(ReferenceData.DiseaseDetails(desc, pre, med, die, wrkout)), raw);
  }

  /** The page always echoes the submitted text. */
  lemma EchoesInput(raw: string, env: Environment)
    requires Usable(env)
    ensures Respond(raw, env).enteredSymptoms == raw
  {
  }

  /** The first outcome: no recognised symptom exactly when no token has a candidate scoring
      strictly above 80. */
  lemma NoValidSymptomsWhen(raw: string, env: Environment)
    requires Usable(env)
    ensures Respond(raw, env) == Page(NoValidSymptomsMessage, None, raw)
      <==> forall k | 0 <= k < |Tokeniser.Tokenise(raw)| ::
             Corrector.CorrectSymptom(Tokeniser.Tokenise(raw)[k], env.dictionaries.validSymptoms, env.scorer).None?
  {
    var d := env.dictionaries;
    assert SymptomNames.NoneEmpty(d.validSymptoms);
    Corrector.CorrectAllEmpty(Tokeniser.Tokenise(raw), d.validSymptoms, env.scorer);
    var corrected := Recognised(raw, env);
    if corrected != [] {
      RecognisedAreKnown(raw, env);
      var predicted := Encoder.PredictedValue(env.svc, d, corrected);
      if predicted.Some? {
        Encoder.PredictionNamesDisease(env.svc, d, corrected);
      }
    }
  }

  /** The second outcome: symptoms were recognised but the prediction gave nothing, because
      there is no classifier, it raised, or it returned a label outside `diseases_list`. */
  lemma PredictionFailedWhen(raw: string, env: Environment)
    requires Usable(env)
    requires Recognised(raw, env) != []
    ensures Encoder.Known(Recognised(raw, env), env.dictionaries)
    ensures Respond(raw, env).details.None?
      <==> Encoder.PredictedValue(env.svc, env.dictionaries, Recognised(raw, env)).None?
    ensures Respond(raw, env).details.None? ==> Respond(raw, env).predictedDisease == PredictionFailedMessage
  {
    RecognisedAreKnown(raw, env);
  }

  /** The third outcome: a page with details names the predicted disease and carries exactly
      what `helper` returns for it. */
  lemma SuccessCarriesDetails(raw: string, env: Environment)
    requires Usable(env)
    requires Respond(raw, env).details.Some?
    ensures Recognised(raw, env) != []
    ensures Encoder.Known(Recognised(raw, env), env.dictionaries)
    ensures var page := Respond(raw, env);
      && Encoder.PredictedValue(env.svc, env.dictionaries, Recognised(raw, env)) == Some(page.predictedDisease)
      && page.predictedDisease in env.dictionaries.diseasesList.Values
      && page.details.value == ReferenceData.Details(env.tables, page.predictedDisease, env.parse)
  {
    RecognisedAreKnown(raw, env);
    Encoder.PredictionNamesDisease(env.svc, env.dictionaries, Recognised(raw, env));
  }

  /** Without a loaded classifier no request succeeds. */
  lemma NoClassifierNoDisease(raw: string, env: Environment)
    requires Usable(env) && env.svc.None?
    ensures Respond(raw, env).details.None?
    ensures Respond(raw, env).predictedDisease in {NoValidSymptomsMessage, PredictionFailedMessage}
  {
  }

  /** A blank submission, or one of commas only, recognises nothing when no symptom scores
      above 80 against the empty string. */
  lemma CommasOnlyRecogniseNothing(raw: string, env: Environment)
    requires Usable(env)
    requires forall k | 0 <= k < |raw| :: raw[k] == ','
    requires Corrector.ExtractOne("", env.dictionaries.validSymptoms, env.scorer).score <= Corrector.Threshold
    ensures Respond(raw, env) == Page(NoValidSymptomsMessage, None, raw)
  {
    Tokeniser.TokeniseOnlyCommas(raw);
    NoValidSymptomsWhen(raw, env);
  }
}
