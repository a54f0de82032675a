/**
 * The decisions of `AcademiaSD_Gemini_Node` in nodes/google_gemini.py: which API key is used,
 * which model is asked, and how every failure but one of `genai.configure` comes back as the result text.
 */
module GeminiNode {
  import opened Common
  import opened Text

  /** The marker every accepted key must contain. */
  const KeyMarker := "AIza"
  /** The text that disqualifies a manual model name. */
  const ErrorMarker := "ERROR"
  /** The longest manual model name the node accepts. */
  const MaxManualModelLength := 100

  /** How the two set-up failures begin. */
  const ErrorLead := "Error: "
  const LibraryMissingMessage := ErrorLead + "Librer\U{ED}a google-generativeai no instalada."
  const NoApiKeyMessage :=
    ErrorLead + "No se encontr\U{F3} API Key. Escr\U{ED}bela en el nodo O crea el archivo 'gemini_api_key.txt' en la carpeta nodes."
  const DiagnosisPrefix := "\U{274C} ERROR CON EL MODELO '"

  /** What reading `gemini_api_key.txt` next to the node gives. */
  datatype KeyFile =
    | NoKeyFile
    /** `open` or `read` raised; the error is printed and ignored. */
    | KeyFileUnreadable
    | KeyFileContents(contents: string)

  /**
   * `get_api_key`: the trimmed key typed into the node when it contains the marker, otherwise the
   * trimmed key file when it contains the marker, otherwise `None`.
   */
  function GetApiKey(providedKey: string, keyFile: KeyFile): (r: Option<string>)
    ensures r.Some? ==> Contains(r.value, KeyMarker)
    ensures Contains(Strip(providedKey), KeyMarker) ==> r == Some(Strip(providedKey))
    ensures !Contains(Strip(providedKey), KeyMarker) ==>
      (r.Some? <==> keyFile.KeyFileContents? && Contains(Strip(keyFile.contents), KeyMarker))
    ensures !Contains(Strip(providedKey), KeyMarker) && r.Some? ==> r.value == Strip(keyFile.contents)
  {
    var key := Strip(providedKey);
    if key != [] && Contains(key, KeyMarker) then Some(key)
    else if keyFile.KeyFileContents? && Contains(Strip(keyFile.contents), KeyMarker) then Some(Strip(keyFile.contents))
    else None
  }

  /** The key the node uses has no surrounding whitespace, whichever source it came from. */
  lemma ApiKeyIsTrimmed(providedKey: string, keyFile: KeyFile)
    ensures GetApiKey(providedKey, keyFile).Some? ==> IsStripped(GetApiKey(providedKey, keyFile).value)
  {
    var _, _ := StripIsTrimmedSlice(providedKey);
    if keyFile.KeyFileContents? {
      var _, _ := StripIsTrimmedSlice(keyFile.contents);
    }
  }

  /** Whitespace around the typed key makes no difference. */
  lemma ApiKeyIgnoresSurroundingSpace(providedKey: string, keyFile: KeyFile)
    ensures GetApiKey(Strip(providedKey), keyFile) == GetApiKey(providedKey, keyFile)
  {
    StripIdempotent(providedKey);
  }

  /** A trimmed manual model name the node accepts: non-empty, at most 100 characters, no `ERROR`. */
  ghost predicate AcceptableManualModel(m: string)
  {
    m != [] && |m| <= MaxManualModelLength && !Contains(m, ErrorMarker)
  }

  /** The model `generate_content` asks: the trimmed manual name when acceptable, else the selector. */
  function ChooseModel(modelSelector: string, manualModel: string): (r: string)
    ensures r == modelSelector || r == Strip(manualModel)
    ensures AcceptableManualModel(Strip(manualModel)) ==> r == Strip(manualModel)
    ensures !AcceptableManualModel(Strip(manualModel)) ==> r == modelSelector
  {
    var manual := Strip(manualModel);
    if |manual| > MaxManualModelLength || Contains(manual, ErrorMarker) then modelSelector
    else if manual != [] then manual
    else modelSelector
  }

  /** Any model other than the selector is a trimmed, acceptable manual name. */
  lemma ChosenModelIsSelectorOrAcceptable(modelSelector: string, manualModel: string)
    ensures var r := ChooseModel(modelSelector, manualModel);
      r == modelSelector || (AcceptableManualModel(r) && IsStripped(r))
  {
    var _, _ := StripIsTrimmedSlice(manualModel);
  }

  /** Trimming the manual name beforehand makes no difference. */
  lemma ChooseModelIgnoresSurroundingSpace(modelSelector: string, manualModel: string)
    ensures ChooseModel(modelSelector, Strip(manualModel)) == ChooseModel(modelSelector, manualModel)
  {
    StripIdempotent(manualModel);
  }

  /** What the call to the Gemini service gives: `response.text`, or the text of the exception raised. */
  datatype Generation = Generated(text: string) | GenerationFailed(error: string)

  /** The node's return value: `{"ui": {"text": uiText}, "result": result}`. */
  datatype NodeOutput = NodeOutput(uiText: seq<string>, result: seq<string>)

  /**
   * How a call of the node ends: with its return value, or with the exception `genai.configure`
   * raised, which the node does not catch.
   */
  datatype NodeResult = Answered(output: NodeOutput) | ConfigureRaised

  /** Both halves of the output carry the same single string. */
  function Reply(msg: string): (r: NodeOutput)
    ensures r.uiText == [msg] && r.result == [msg]
  {
    NodeOutput([msg], [msg])
  }

  /** The text returned when the model call raises. */
  function Diagnosis(model: string, error: string): (r: string)
    ensures DiagnosisPrefix + model <= r
    ensures |r| >= |error| && r[|r| - |error|..] == error
  {
    var r := DiagnosisPrefix + model + "':\n" + error;
    assert r == (DiagnosisPrefix + model + "':\n") + error;
    r
  }

  /**
   * `generate_content`: `libraryAvailable` stands for the import of `google.generativeai` having
   * succeeded, `configure(key)` for `genai.configure` returning normally, and
   * `generate(key, model, prompt)` for asking the model. A failure of `configure` escapes the node;
   * every other failure is returned as text.
   */
  function GenerateContent(libraryAvailable: bool, apiKey: string, modelSelector: string, prompt: string,
                           manualModel: string, keyFile: KeyFile, configure: string -> bool,
                           generate: (string, string, string) -> Generation): (r: NodeResult)
    ensures r.ConfigureRaised? <==>
      libraryAvailable && GetApiKey(apiKey, keyFile).Some? && !configure(GetApiKey(apiKey, keyFile).value)
    ensures r.Answered? ==> |r.output.result| == 1 && r.output.uiText == r.output.result
    ensures !libraryAvailable ==> r.output.result[0] == LibraryMissingMessage
    ensures libraryAvailable && GetApiKey(apiKey, keyFile).None? ==> r.output.result[0] == NoApiKeyMessage
    ensures r.Answered? && libraryAvailable && GetApiKey(apiKey, keyFile).Some? ==>
      var model := ChooseModel(modelSelector, manualModel);
      match generate(GetApiKey(apiKey, keyFile).value, model, prompt)
      case Generated(text) => r.output.result[0] == text
      case GenerationFailed(error) => r.output.result[0] == Diagnosis(model, error)
  {
    if !libraryAvailable then Answered(Reply(LibraryMissingMessage))
    else
      var validApiKey := GetApiKey(apiKey, keyFile);
      if validApiKey.None? then Answered(Reply(NoApiKeyMessage))
      else
        var modelToUse := ChooseModel(modelSelector, manualModel);
        if !configure(validApiKey.value) then ConfigureRaised
        else
          match generate(validApiKey.value, modelToUse, prompt)
          case Generated(text) => Answered(Reply(text))
          case GenerationFailed(error) => Answered(Reply(Diagnosis(modelToUse, error)))
  }

  /** The service is only configured and asked when the library is there and a key with the marker was found. */
  lemma ServiceNotAskedWithoutKey(libraryAvailable: bool, apiKey: string, modelSelector: string, prompt: string,
                                  manualModel: string, keyFile: KeyFile,
                                  configure: string -> bool, generate: (string, string, string) -> Generation,
                                  otherConfigure: string -> bool, other: (string, string, string) -> Generation)
    requires !libraryAvailable || GetApiKey(apiKey, keyFile).None?
    ensures GenerateContent(libraryAvailable, apiKey, modelSelector, prompt, manualModel, keyFile, configure, generate) ==
      GenerateContent(libraryAvailable, apiKey, modelSelector, prompt, manualModel, keyFile, otherConfigure, other)
  {
  }

  /**
   * The service is configured with the found key only, and asked once: with that key, the chosen
   * model and the prompt as given. Two services that agree on that one call give the same result.
   */
  lemma OnlyTheChosenCallMatters(libraryAvailable: bool, apiKey: string, modelSelector: string, prompt: string,
                                 manualModel: string, keyFile: KeyFile,
                                 configure: string -> bool, generate: (string, string, string) -> Generation,
                                 otherConfigure: string -> bool, other: (string, string, string) -> Generation)
    requires libraryAvailable && GetApiKey(apiKey, keyFile).Some?
    requires var key := GetApiKey(apiKey, keyFile).value;
      configure(key) == otherConfigure(key) &&
      generate(key, ChooseModel(modelSelector, manualModel), prompt) ==
      other(key, ChooseModel(modelSelector, manualModel), prompt)
    ensures GenerateContent(libraryAvailable, apiKey, modelSelector, prompt, manualModel, keyFile, configure, generate) ==
      GenerateContent(libraryAvailable, apiKey, modelSelector, prompt, manualModel, keyFile, otherConfigure, other)
  {
  }

  /** The three kinds of failure text can be told apart. */
  lemma FailureTextsDistinct(model: string, error: string)
    ensures LibraryMissingMessage != NoApiKeyMessage
    ensures Diagnosis(model, error) != LibraryMissingMessage && Diagnosis(model, error) != NoApiKeyMessage
  {
    var d := Diagnosis(model, error);
    assert d[0] == '\U{274C}';
    MessageHeads();
  }

  lemma MessageHeads()
    ensures LibraryMissingMessage[0] == 'E' && NoApiKeyMessage[0] == 'E'
    ensures |LibraryMissingMessage| != |NoApiKeyMessage|
  {
  }
}
