/**
 * Request and payload validators (middleware/validation.js): ordered guard
 * checks. The HTTP middlewares answer 400 or pass the request on; the
 * user-data check returns a verdict to its caller.
 */
module Validation {
  import opened Js
  import RoomCodes

  /** What a middleware does with a request: reject it, or call `next()`. */
  datatype Verdict = Reject(status: int, message: string) | Next

  /** Result of `validateUserData`. */
  datatype UserCheck = UserValid | UserInvalid(message: string)

  /** `userName` passes: a string that is not only whitespace. */
  predicate NameOk(v: Value) { v.Str? && v.s != "" && !IsBlank(v.s) }

  /** `language` / `speakingLanguage` pass: a non-empty string. */
  predicate LanguageOk(v: Value) { v.Str? && v.s != "" }

  function ValidateUserData(userName: Value, language: Value, speakingLanguage: Value): (r: UserCheck)
    ensures r.UserValid? <==> NameOk(userName) && LanguageOk(language) && LanguageOk(speakingLanguage)
    ensures !NameOk(userName) ==> r == UserInvalid("Valid user name is required")
    ensures NameOk(userName) && !LanguageOk(language) ==> r == UserInvalid("Language preference is required")
    ensures NameOk(userName) && LanguageOk(language) && !LanguageOk(speakingLanguage) ==>
                r == UserInvalid("Speaking language is required")
  {
    if !Truthy(userName) || !userName.Str? || Trim(userName.s) == "" then
      TrimEmptyIffBlank(if userName.Str? then userName.s else "");
      UserInvalid("Valid user name is required")
    else if !Truthy(language) || !language.Str? then
      TrimEmptyIffBlank(userName.s);
      UserInvalid("Language preference is required")
    else if !Truthy(speakingLanguage) || !speakingLanguage.Str? then
      TrimEmptyIffBlank(userName.s);
      UserInvalid("Speaking language is required")
    else
      TrimEmptyIffBlank(userName.s);
      UserValid
  }

  const MaxTextLength := 5000

  function ValidateTranslation(text: Value, targetLanguage: Value): (r: Verdict)
    ensures r.Next? <==> text.Str? && !IsBlank(text.s) && Utf16Length(text.s) <= MaxTextLength && Truthy(targetLanguage)
    ensures !Truthy(text) ==> r == Reject(400, "Text is required")
    ensures Truthy(text) && !Truthy(targetLanguage) ==> r == Reject(400, "Target language is required")
    ensures Truthy(text) && Truthy(targetLanguage) && (!text.Str? || IsBlank(text.s)) ==>
                r == Reject(400, "Text must be a non-empty string")
    ensures text.Str? && !IsBlank(text.s) && Truthy(targetLanguage) && Utf16Length(text.s) > MaxTextLength ==>
                r == Reject(400, "Text too long (maximum 5000 characters)")
  {
    if !Truthy(text) then
      Reject(400, "Text is required")
    else if !Truthy(targetLanguage) then
      Reject(400, "Target language is required")
    else if !text.Str? || |Trim(text.s)| == 0 then
      TrimEmptyIffBlank(if text.Str? then text.s else "");
      Reject(400, "Text must be a non-empty string")
    else if Utf16Length(text.s) > MaxTextLength then
      TrimEmptyIffBlank(text.s);
      Reject(400, "Text too long (maximum 5000 characters)")
    else
      TrimEmptyIffBlank(text.s);
      Next
  }

  /**
   * `validateRoomCode`: the route parameter wins over the body field when it
   * is truthy, and the pattern is matched against the value's string form.
   */
  function ValidateRoomCode(paramsRoomCode: Value, bodyRoomCode: Value): (r: Verdict)
    ensures var code := Or(paramsRoomCode, bodyRoomCode);
            r.Next? <==> RoomCodes.IsValidRoomCode(ToString(code))
    ensures var code := Or(paramsRoomCode, bodyRoomCode);
            !code.Str? && !code.Arr? ==> r.Reject?
    ensures !Truthy(paramsRoomCode) && !Truthy(bodyRoomCode) ==> r == Reject(400, "Room code is required")
    ensures var code := Or(paramsRoomCode, bodyRoomCode);
            Truthy(code) && !RoomCodes.IsValidRoomCode(ToString(code)) ==>
                r == Reject(400, "Invalid room code format. Expected format: abc-defg-hij")
    ensures Truthy(paramsRoomCode) ==> Or(paramsRoomCode, bodyRoomCode) == paramsRoomCode
  {
    var roomCode := Or(paramsRoomCode, bodyRoomCode);
    RoomCodes.NonStringNeverValid(roomCode);
    if !Truthy(roomCode) then
      Reject(400, "Room code is required")
    else if !RoomCodes.IsValidRoomCode(ToString(roomCode)) then
      Reject(400, "Invalid room code format. Expected format: abc-defg-hij")
    else
      Next
  }

  /** A body field holding a one-element array of a valid code passes, as `String(["abc-defg-hij"])` does. */
  lemma {:induction false} SingletonArrayPasses(code: string)
    requires RoomCodes.IsValidRoomCode(code)
    ensures ValidateRoomCode(Undefined, Arr([Str(code)])) == Next
  {
    assert Or(Undefined, Arr([Str(code)])) == Arr([Str(code)]);
  }
}
