/**
  The Gemini API key: the single-slot key file behind `get_api_key` and
  `save_api_key` (news_chatbot.py, lines 21-40), and the decision tree of
  `validate_api_key` (lines 43-99), with the trial model call taken as a
  function from the key it is called with to its outcome.
*/
module Credentials {
  import opened Options
  import opened Text

  // ----- The key file -----

  /** The key file: missing, not parseable as JSON, or a JSON object whose `api_key` may be absent. */
  datatype KeyFile = NoKeyFile | CorruptKeyFile | KeyFileData(apiKey: Option<string>)

  /** `get_api_key`: the stored key, or "" whenever there is none to read. */
  function StoredKey(f: KeyFile): (key: string)
    ensures f.KeyFileData? && f.apiKey.Some? ==> key == f.apiKey.value
    ensures !(f.KeyFileData? && f.apiKey.Some?) ==> key == ""
  {
    match f
    case KeyFileData(Some(k)) => k
    case _ => ""
  }

  /** The key file as the program sees it. */
  class KeyStore {
    var file: KeyFile

    constructor(initial: KeyFile)
      ensures file == initial
    {
      file := initial;
    }

    /** `get_api_key` (news_chatbot.py, lines 21-30). */
    method Get() returns (key: string)
      ensures key == StoredKey(file)
    {
      match file
      case KeyFileData(Some(k)) => key := k;
      case _ => key := "";
    }

    /**
      `save_api_key` (news_chatbot.py, lines 33-40): the file becomes a
      one-key object; `writeOk` is whether opening and writing succeeded.
    */
    method Save(apiKey: string, writeOk: bool) returns (ok: bool)
      modifies this
      ensures ok == writeOk
      ensures ok ==> file == KeyFileData(Some(apiKey)) && StoredKey(file) == apiKey
      ensures !ok ==> file == old(file)
    {
      if !writeOk {
        return false;
      }
      file := KeyFileData(Some(apiKey));
      return true;
    }
  }

  /** The round trip the integration script checks: a saved key is read back unchanged. */
  method SaveThenGet(store: KeyStore, apiKey: string) returns (loaded: string)
    modifies store
    ensures loaded == apiKey
  {
    var ok := store.Save(apiKey, true);
    loaded := store.Get();
  }

  // ----- Validation -----

  /** The dictionary `validate_api_key` returns. */
  datatype Validation = Validation(valid: bool, message: string, details: string)

  /** What the trial `generate_content` call did: returned a response of some truthiness, or raised. */
  datatype TrialOutcome = Responded(truthy: bool) | Raised(error: string)

  const KeyPrefix := "AIza"

  const NotEntered := Validation(false, "❌ API 키가 입력되지 않았습니다.", "재미나이(Gemini) API 키를 입력해주세요.")
  const BadFormat := Validation(false, "❌ API 키 형식이 올바르지 않습니다.", "재미나이 API 키는 'AIza'로 시작해야 합니다.")
  const Accepted := Validation(true, "✅ API 키가 유효합니다! 정상적으로 작동합니다.", "API 키 검증 성공. 모델 응답 확인 완료.")
  const Unconfirmed := Validation(false, "❌ API 키 검증에 실패했습니다.", "알 수 없는 오류가 발생했습니다.")

  const InvalidKeyMessage := "❌ API 키가 유효하지 않습니다."
  const QuotaMessage := "⚠️ API 키는 유효하지만 사용량 한도에 도달했습니다."
  const TrialErrorMessage := "❌ API 키 검증 중 오류가 발생했습니다."

  /** The `details` text of a failed trial: the error text, then a hint. */
  function ErrorDetails(errorText: string, hint: string): string {
    "오류 내용: " + errorText + "\n\n" + hint
  }

  /** The `except` branch (news_chatbot.py, lines 74-93): classify the error text of a failed trial. */
  function ClassifyFailure(errorText: string): (v: Validation)
    ensures !v.valid
    ensures v.message == InvalidKeyMessage <==> Contains(LowerAscii(errorText), "invalid")
    ensures v.message == QuotaMessage <==>
      !Contains(LowerAscii(errorText), "invalid")
      && (Contains(LowerAscii(errorText), "quota") || Contains(LowerAscii(errorText), "limit"))
    ensures StartsWith(v.details, "오류 내용: " + errorText)
  {
    var lowered := LowerAscii(errorText);
    ApiKeyInvalidIsInvalid(errorText);
    if Contains(errorText, "API_KEY_INVALID") || Contains(lowered, "invalid") then
      Validation(false, InvalidKeyMessage, ErrorDetails(errorText, "올바른 API 키를 입력해주세요."))
    else if Contains(lowered, "quota") || Contains(lowered, "limit") then
      Validation(false, QuotaMessage, ErrorDetails(errorText, "API 사용량을 확인해주세요."))
    else
      Validation(false, TrialErrorMessage, ErrorDetails(errorText, "네트워크 연결을 확인하거나 잠시 후 다시 시도해주세요."))
  }

  /**
    `validate_api_key` (news_chatbot.py, lines 43-99). `trial` gives the
    outcome of the model call made with the stripped key.
  */
  function ValidateApiKey(apiKey: string, trial: string -> TrialOutcome): (v: Validation)
    ensures v.valid <==> v == Accepted
  {
    ValidateStripped(Strip(apiKey), trial)
  }

  /** The checks `validate_api_key` makes once the key has been stripped. */
  function ValidateStripped(key: string, trial: string -> TrialOutcome): (v: Validation)
    ensures v.valid <==> key != "" && StartsWith(key, KeyPrefix) && trial(key) == Responded(true)
  {
    if key == "" then NotEntered
    else if !StartsWith(key, KeyPrefix) then BadFormat
    else
      match trial(key)
      case Responded(truthy) => if truthy then Accepted else Unconfirmed
      case Raised(e) => ClassifyFailure(e)
  }

  /**
    The key is accepted exactly when its stripped form starts with "AIza"
    and the trial call made with that stripped form returns a truthy response.
  */
  lemma ValidIff(apiKey: string, trial: string -> TrialOutcome)
    ensures ValidateApiKey(apiKey, trial).valid <==>
      StartsWith(Strip(apiKey), KeyPrefix) && trial(Strip(apiKey)) == Responded(true)
  {
    var key := Strip(apiKey);
    if key != "" && StartsWith(key, KeyPrefix) && trial(key).Raised? {
      assert !ClassifyFailure(trial(key).error).valid;
    }
  }

  /** A blank or missing key is reported as not entered. */
  lemma BlankKeyNotEntered(apiKey: string, trial: string -> TrialOutcome)
    requires Blank(apiKey)
    ensures ValidateApiKey(apiKey, trial) == NotEntered
  {
    StripEmptyIffBlank(apiKey);
  }

  /**
    A key rejected by the pre-checks is rejected without consulting the
    trial: any two trial outcomes give the same answer.
  */
  lemma PreCheckMakesNoCall(apiKey: string, trial1: string -> TrialOutcome, trial2: string -> TrialOutcome)
    requires !StartsWith(Strip(apiKey), KeyPrefix)
    ensures ValidateApiKey(apiKey, trial1) == ValidateApiKey(apiKey, trial2)
    ensures ValidateApiKey(apiKey, trial1) == NotEntered || ValidateApiKey(apiKey, trial1) == BadFormat
  {
  }

  /** A non-blank key that lacks the prefix after stripping gets the bad-format answer. */
  lemma WrongPrefixBadFormat(apiKey: string, trial: string -> TrialOutcome)
    requires !Blank(apiKey) && !StartsWith(Strip(apiKey), KeyPrefix)
    ensures ValidateApiKey(apiKey, trial) == BadFormat
  {
    StripEmptyIffBlank(apiKey);
  }

  /** A response that is falsy falls through to the generic failure. */
  lemma FalsyResponseUnconfirmed(apiKey: string, trial: string -> TrialOutcome)
    requires StartsWith(Strip(apiKey), KeyPrefix) && trial(Strip(apiKey)) == Responded(false)
    ensures ValidateApiKey(apiKey, trial) == Unconfirmed
  {
  }

  /** Surrounding whitespace does not matter: the key is validated, and tried, stripped. */
  lemma StripInvariant(apiKey: string, trial: string -> TrialOutcome)
    ensures ValidateApiKey(Strip(apiKey), trial) == ValidateApiKey(apiKey, trial)
  {
    StripIdempotent(apiKey);
  }

  lemma StripIdempotent(s: string)
    ensures Strip(Strip(s)) == Strip(s)
  {
    StripEnds(s);
    StripFixed(Strip(s));
  }

  /**
    The upper-case `"API_KEY_INVALID"` test is subsumed by the lower-cased
    `"invalid"` test: any text holding the former holds the latter once lowered.
  */
  lemma ApiKeyInvalidIsInvalid(errorText: string)
    ensures Contains(errorText, "API_KEY_INVALID") ==> Contains(LowerAscii(errorText), "invalid")
  {
    if Contains(errorText, "API_KEY_INVALID") {
      var k := ContainsIndex(errorText, "API_KEY_INVALID");
      var lowered := LowerAscii(errorText);
      assert errorText[k + 8..k + 15] == "INVALID" by {
        assert errorText[k..k + 15] == "API_KEY_INVALID";
      }
      LowerInvalid(errorText, lowered, k + 8);
      ContainsAt(lowered, "invalid", k + 8);
    }
  }

  lemma LowerInvalid(s: string, lowered: string, i: nat)
    requires i + 7 <= |s| && s[i..i + 7] == "INVALID"
    requires lowered == LowerAscii(s)
    ensures lowered[i..i + 7] == "invalid"
  {
    forall j | 0 <= j < 7
      ensures lowered[i + j] == "invalid"[j]
    {
      assert s[i + j] == "INVALID"[j];
    }
  }

  /** Invalid-key errors win over quota errors when a message mentions both. */
  lemma InvalidBeforeQuota(errorText: string)
    requires Contains(LowerAscii(errorText), "invalid")
    ensures ClassifyFailure(errorText).message == InvalidKeyMessage
  {
  }

  /** An error that mentions none of the keywords is the generic trial error. */
  lemma OtherErrorsGeneric(errorText: string)
    requires !Contains(LowerAscii(errorText), "invalid")
    requires !Contains(LowerAscii(errorText), "quota") && !Contains(LowerAscii(errorText), "limit")
    ensures ClassifyFailure(errorText).message == TrialErrorMessage
  {
  }
}
